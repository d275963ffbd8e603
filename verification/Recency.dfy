/**
  A recency list as a value: entries from coldest to warmest, one per key.  The
  operations are those of PrefixLRU in fused_moe/unified_pool.py; the class in
  PrefixLru.dfy is proved to implement them on a doubly linked list.
 */
module Recency {

  datatype Entry = Entry(key: nat, step: nat)

  ghost predicate Distinct(l: seq<Entry>) {
    forall j, k :: 0 <= j < k < |l| ==> l[j].key != l[k].key
  }

  /** Traversal order is recency order. */
  ghost predicate Sorted(l: seq<Entry>) {
    forall j, k :: 0 <= j < k < |l| ==> l[j].step <= l[k].step
  }

  ghost predicate NoNewerThan(l: seq<Entry>, step: nat) {
    forall e :: e in l ==> e.step <= step
  }

  function Keys(l: seq<Entry>): (s: set<nat>)
  {
    set e | e in l :: e.key
  }

  /** Where a key sits, or the length of the list. */
  function Find(l: seq<Entry>, key: nat): (k: nat)
    ensures k <= |l| && (k < |l| ==> l[k].key == key)
    ensures forall j :: 0 <= j < k ==> l[j].key != key
  {
    if l == [] || l[0].key == key then 0 else 1 + Find(l[1..], key)
  }

  function RemoveAt(l: seq<Entry>, k: nat): seq<Entry> requires k < |l| { l[..k] + l[k + 1..] }

  function Remove(l: seq<Entry>, key: nat): seq<Entry> {
    var k := Find(l, key);
    if k < |l| then RemoveAt(l, k) else l
  }

  function Touch(l: seq<Entry>, key: nat, step: nat): seq<Entry> {
    Remove(l, key) + [Entry(key, step)]
  }

  /** dst takes the place and the step of src; a missing src makes dst the newest. */
  function Rename(l: seq<Entry>, src: nat, dst: nat, fallback: nat): seq<Entry> {
    var r := Remove(l, dst);
    var k := Find(r, src);
    if k < |r| then r[k := Entry(dst, r[k].step)] else Touch(r, dst, fallback)
  }

  /** How many entries from the cold end are no newer than step, up to the last such one. */
  function Rank(l: seq<Entry>, step: nat): (k: nat)
    ensures k <= |l| && (k > 0 ==> l[k - 1].step <= step)
    ensures forall j :: k <= j < |l| ==> l[j].step > step
  {
    if l == [] then 0
    else if l[|l| - 1].step <= step then |l|
    else Rank(l[..|l| - 1], step)
  }

  lemma RankIs(l: seq<Entry>, step: nat, k: nat)
    requires k <= |l| && (k > 0 ==> l[k - 1].step <= step)
    requires forall j :: k <= j < |l| ==> l[j].step > step
    ensures Rank(l, step) == k
  {
  }

  function InsertOrdered(l: seq<Entry>, key: nat, step: nat): seq<Entry> {
    var r := Remove(l, key);
    var k := Rank(r, step);
    r[..k] + [Entry(key, step)] + r[k..]
  }

  function Steps(l: seq<Entry>): seq<nat> {
    seq(|l|, i requires 0 <= i < |l| => l[i].step)
  }

  // ----- What the operations keep -----

  lemma FindUnique(l: seq<Entry>, k: nat)
    requires Distinct(l) && k < |l|
    ensures Find(l, l[k].key) == k
  {
  }

  lemma RemoveKeeps(l: seq<Entry>, key: nat)
    requires Distinct(l)
    ensures Distinct(Remove(l, key)) && (Sorted(l) ==> Sorted(Remove(l, key)))
    ensures forall e :: e in Remove(l, key) <==> e in l && e.key != key
    ensures Keys(Remove(l, key)) == Keys(l) - {key}
    ensures |Remove(l, key)| == |l| - if key in Keys(l) then 1 else 0
  {
    hide Find, Distinct, Sorted;
    FindPresent(l, key);
    var k := Find(l, key);
    if k < |l| {
      RemoveAtOrders(l, k);
      RemoveAtMembers(l, k);
    } else {
      forall e | e in l ensures e.key != key { assert e.key in Keys(l); }
    }
  }

  lemma RemoveAtOrders(l: seq<Entry>, k: nat)
    requires k < |l|
    ensures Distinct(l) ==> Distinct(RemoveAt(l, k))
    ensures Sorted(l) ==> Sorted(RemoveAt(l, k))
  {
    forall j | 0 <= j < |l| - 1 ensures RemoveAt(l, k)[j] == l[if j < k then j else j + 1] { }
  }

  lemma RemoveAtMembers(l: seq<Entry>, k: nat)
    requires k < |l| && Distinct(l)
    ensures forall e :: e in RemoveAt(l, k) <==> e in l && e.key != l[k].key
  {
    var r := RemoveAt(l, k);
    forall e ensures e in r <==> e in l && e.key != l[k].key {
      if e in l && e.key != l[k].key {
        var j :| 0 <= j < |l| && l[j] == e;
        assert r[if j < k then j else j - 1] == e;
      }
      if e in r {
        var j :| 0 <= j < |r| && r[j] == e;
        assert l[if j < k then j else j + 1] == e;
      }
    }
  }

  lemma TouchKeeps(l: seq<Entry>, key: nat, step: nat)
    requires Distinct(l)
    ensures Distinct(Touch(l, key, step)) && Keys(Touch(l, key, step)) == Keys(l) + {key}
    ensures Sorted(l) && NoNewerThan(l, step) ==> Sorted(Touch(l, key, step)) && NoNewerThan(Touch(l, key, step), step)
  {
    hide Remove, Distinct, Sorted, NoNewerThan;
    RemoveKeeps(l, key);
    forall e | e in Remove(l, key) ensures e.key != key { }
    Appended(Remove(l, key), Entry(key, step));
    if NoNewerThan(l, step) {
      NewerStill(l, Remove(l, key), step);
    }
  }

  lemma NewerStill(l: seq<Entry>, r: seq<Entry>, step: nat)
    requires NoNewerThan(l, step) && forall e :: e in r ==> e in l
    ensures NoNewerThan(r, step)
  {
  }

  lemma Appended(l: seq<Entry>, e: Entry)
    requires Distinct(l) && forall f :: f in l ==> f.key != e.key
    ensures Distinct(l + [e]) && Keys(l + [e]) == Keys(l) + {e.key}
    ensures NoNewerThan(l, e.step) ==> NoNewerThan(l + [e], e.step)
    ensures NoNewerThan(l, e.step) && Sorted(l) ==> Sorted(l + [e])
  {
    forall j | 0 <= j < |l| ensures l[j].key != e.key { assert l[j] in l; }
    if NoNewerThan(l, e.step) {
      forall j | 0 <= j < |l| ensures l[j].step <= e.step { assert l[j] in l; }
    }
  }

  lemma ReplaceKey(m: seq<Entry>, k: nat, dst: nat)
    requires Distinct(m) && k < |m| && dst !in Keys(m)
    ensures
      var r := m[k := Entry(dst, m[k].step)];
      Distinct(r) && (Sorted(m) ==> Sorted(r)) && Steps(r) == Steps(m) && Keys(r) == Keys(m) - {m[k].key} + {dst}
  {
    var r := m[k := Entry(dst, m[k].step)];
    forall j | 0 <= j < |m| ensures m[j].key != dst { assert m[j] in m; }
    forall p ensures p in Keys(r) <==> p in Keys(m) - {m[k].key} + {dst} {
      if p in Keys(m) && p != m[k].key {
        var f :| f in m && f.key == p;
        var j :| 0 <= j < |m| && m[j] == f;
        assert r[j] == f;
      }
      assert r[k].key == dst;
    }
  }

  lemma FindPresent(l: seq<Entry>, key: nat)
    ensures Find(l, key) < |l| <==> key in Keys(l)
  {
    if key in Keys(l) {
      var e :| e in l && e.key == key;
    }
  }

  /** Relocating a page changes neither the order nor the steps of the list. */
  lemma RenameKeeps(l: seq<Entry>, src: nat, dst: nat, fallback: nat)
    requires Distinct(l) && src in Keys(l) && src != dst
    ensures
      var r := Rename(l, src, dst, fallback);
      && Distinct(r) && Keys(r) == Keys(l) - {src} + {dst}
      && Steps(r) == Steps(Remove(l, dst))
      && (Sorted(l) ==> Sorted(r))
  {
    RemoveKeeps(l, dst);
    var m := Remove(l, dst);
    FindPresent(m, src);
    hide Distinct, Sorted, Keys, Remove, Steps;
    ReplaceKey(m, Find(m, src), dst);
  }

  lemma RenameInPlace(l: seq<Entry>, src: nat, dst: nat, fallback: nat)
    requires Distinct(l) && src in Keys(l) && dst !in Keys(l)
    ensures
      var r := Rename(l, src, dst, fallback);
      |r| == |l| && forall i :: 0 <= i < |l| ==> r[i] == if l[i].key == src then Entry(dst, l[i].step) else l[i]
  {
    FindPresent(l, dst);
    FindPresent(l, src);
  }

  lemma InsertAt(r: seq<Entry>, k: nat, e: Entry)
    requires Distinct(r) && Sorted(r) && k <= |r| && e.key !in Keys(r)
    requires k > 0 ==> r[k - 1].step <= e.step
    requires forall j :: k <= j < |r| ==> r[j].step > e.step
    ensures Distinct(r[..k] + [e] + r[k..]) && Sorted(r[..k] + [e] + r[k..])
  {
    forall j | 0 <= j < |r| ensures r[j].key != e.key { assert r[j] in r; }
    forall j | 0 <= j < k ensures r[j].step <= e.step {
      assert j < k - 1 ==> r[j].step <= r[k - 1].step;
    }
  }

  lemma InsertOrderedKeeps(l: seq<Entry>, key: nat, step: nat)
    requires Distinct(l) && Sorted(l)
    ensures Distinct(InsertOrdered(l, key, step)) && Sorted(InsertOrdered(l, key, step))
  {
    hide Distinct, Sorted, Keys, Remove;
    RemoveKeeps(l, key);
    var r := Remove(l, key);
    InsertAt(r, Rank(r, step), Entry(key, step));
  }

  lemma KeyAt(l: seq<Entry>, key: nat) returns (k: nat)
    requires key in Keys(l)
    ensures k < |l| && l[k].key == key
  {
    var e :| e in l && e.key == key;
    k :| 0 <= k < |l| && l[k] == e;
  }

  lemma {:induction false} KeysSize(l: seq<Entry>)
    requires Distinct(l)
    ensures |Keys(l)| == |l|
  {
    if l != [] {
      var n := |l| - 1;
      KeysSize(l[..n]);
      assert l == l[..n] + [l[n]];
      assert Keys(l) == Keys(l[..n]) + {l[n].key};
    }
  }

  // ----- Counting -----

  function Min(a: nat, b: nat): nat { if a < b then a else b }

  function Members(queue: seq<nat>): (r: set<nat>)
    ensures (forall x :: x in r <==> x in queue) && |r| <= |queue|
  {
    if queue == [] then {} else
      var n := |queue| - 1;
      assert queue == queue[..n] + [queue[n]];
      Members(queue[..n]) + {queue[n]}
  }

  ghost predicate NoRepeats(queue: seq<nat>) {
    forall j, k :: 0 <= j < k < |queue| ==> queue[j] != queue[k]
  }

  /** Without repetition a list has as many members as elements. */
  lemma {:induction false} MembersSize(s: seq<nat>)
    requires NoRepeats(s)
    ensures |Members(s)| == |s|
  {
    if s != [] {
      MembersSize(s[..|s| - 1]);
    }
  }

  ghost function Range(base: nat, n: nat): (r: set<nat>)
    ensures (forall x :: x in r <==> base <= x < base + n) && |r| == n
  {
    if n == 0 then {} else Range(base, n - 1) + {base + n - 1}
  }

  lemma {:induction false} SubsetSize<T>(a: set<T>, b: set<T>)
    requires a <= b
    ensures |a| <= |b|
  {
    assert b == a + (b - a);
  }
}
