/**
  What the manager looks for in the pool: holes to move pages into, pages that may be
  displaced, super-blocks that may be vacated.
 */
module PoolQueries {
  import opened Recency
  import opened PoolState

  // ----- Sublists -----

  ghost function Filter<T>(s: seq<T>, f: T -> bool): seq<T> {
    if s == [] then []
    else Filter(s[..|s| - 1], f) + if f(s[|s| - 1]) then [s[|s| - 1]] else []
  }

  lemma {:induction false} FilterMembers<T>(s: seq<T>, f: T -> bool)
    ensures forall x :: x in Filter(s, f) <==> x in s && f(x)
  {
    if s != [] {
      FilterMembers(s[..|s| - 1], f);
      assert s == s[..|s| - 1] + [s[|s| - 1]];
    }
  }

  lemma {:induction false} FilterFrom<T>(s: seq<T>, f: T -> bool, j: nat) returns (i: nat)
    requires j < |Filter(s, f)|
    ensures i < |s| && s[i] == Filter(s, f)[j] && f(s[i])
  {
    var n := |s| - 1;
    if j < |Filter(s[..n], f)| {
      i := FilterFrom(s[..n], f, j);
    } else {
      i := n;
    }
  }

  lemma {:induction false} FilterPairs<T>(s: seq<T>, f: T -> bool, r: (T, T) -> bool)
    requires forall j, k :: 0 <= j < k < |s| ==> r(s[j], s[k])
    ensures forall j, k :: 0 <= j < k < |Filter(s, f)| ==> r(Filter(s, f)[j], Filter(s, f)[k])
  {
    if s != [] {
      var t := s[..|s| - 1];
      FilterPairs(t, f, r);
      forall j | 0 <= j < |Filter(t, f)| ensures r(Filter(t, f)[j], s[|s| - 1]) {
        var i := FilterFrom(t, f, j);
        assert s[i] == t[i];
      }
    }
  }

  lemma {:induction false} FilterPrefix<T>(s: seq<T>, f: T -> bool, n: nat)
    requires n <= |s|
    ensures Filter(s[..n], f) <= Filter(s, f)
  {
    if n == |s| {
      assert s[..n] == s;
    } else {
      assert s[..|s| - 1][..n] == s[..n];
      FilterPrefix(s[..|s| - 1], f, n);
    }
  }

  lemma FilterNext<T>(s: seq<T>, f: T -> bool, n: nat)
    requires n < |s|
    ensures Filter(s[..n + 1], f) == Filter(s[..n], f) + if f(s[n]) then [s[n]] else []
  {
    assert s[..n + 1][..n] == s[..n];
  }

  // ----- Holes and displaceable pages -----

  /** A free page that a cached page can move into. */
  ghost function HoleOutside(c: Config, p: Pool, s: nat): nat -> bool
    requires c.F > 0
  {
    (x: nat) => x !in p.hashOf && Sb(c, x) != s && Sb(c, x) !in p.holder && !Pinned(p.layers, Sb(c, x))
  }

  /** A cached page that can be evicted to make a hole. */
  ghost function DisplaceableOutside(c: Config, p: Pool, s: nat): Entry -> bool
    requires c.F > 0
  {
    (e: Entry) => Sb(c, e.key) != s && !Pinned(p.layers, Sb(c, e.key))
  }

  ghost function Holes(c: Config, p: Pool, s: nat): seq<nat>
    requires c.F > 0
  {
    Filter(p.queue, HoleOutside(c, p, s))
  }

  /** Coldest first. */
  ghost function Displaceables(c: Config, p: Pool, s: nat): seq<Entry>
    requires c.F > 0
  {
    Filter(p.lru, DisplaceableOutside(c, p, s))
  }

  lemma HolesFacts(c: Config, p: Pool, s: nat, taken: set<nat>)
    requires Inv(c, p, taken)
    ensures
      var hs := Holes(c, p, s);
      && (forall j, k :: 0 <= j < k < |hs| ==> hs[j] != hs[k])
      && (forall j :: 0 <= j < |hs| ==> hs[j] in p.queue && HoleOutside(c, p, s)(hs[j]))
  {
    hide LruOk, CacheOk, LayersOk, HolderOk, Exclusive, KvBytes, ExpertBytes, Sb;
    FilterPairs(p.queue, HoleOutside(c, p, s), (a, b) => a != b);
    FilterMembers(p.queue, HoleOutside(c, p, s));
    var hs := Holes(c, p, s);
    forall j | 0 <= j < |hs| ensures hs[j] in p.queue && HoleOutside(c, p, s)(hs[j]) {
      assert hs[j] in hs;
    }
  }

  lemma DisplaceablesFacts(c: Config, p: Pool, s: nat, taken: set<nat>)
    requires Inv(c, p, taken)
    ensures
      var ds := Displaceables(c, p, s);
      && Distinct(ds) && Sorted(ds)
      && (forall j :: 0 <= j < |ds| ==> ds[j] in p.lru && DisplaceableOutside(c, p, s)(ds[j]))
  {
    hide QueueOk, CacheOk, LayersOk, HolderOk, Exclusive, KvBytes, ExpertBytes, Sb;
    var ok := DisplaceableOutside(c, p, s);
    FilterPairs(p.lru, ok, (a: Entry, b: Entry) => a.key != b.key);
    FilterPairs(p.lru, ok, (a: Entry, b: Entry) => a.step <= b.step);
    FilterMembers(p.lru, ok);
    var ds := Displaceables(c, p, s);
    forall j | 0 <= j < |ds| ensures ds[j] in p.lru && ok(ds[j]) {
      assert ds[j] in ds;
    }
  }

  // ----- The cached pages of a super-block, warmest first -----

  /** The step of a page, or -1: prefix_lru.get(page, -1). */
  function StepOf(l: seq<Entry>, x: nat): int {
    var k := Find(l, x);
    if k < |l| then l[k].step else -1
  }

  ghost predicate WarmestFirst(l: seq<Entry>, pp: seq<nat>) {
    forall j, k :: 0 <= j < k < |pp| ==> StepOf(l, pp[j]) >= StepOf(l, pp[k])
  }

  function InsertWarm(l: seq<Entry>, pp: seq<nat>, x: nat): (r: seq<nat>)
    requires WarmestFirst(l, pp)
    ensures WarmestFirst(l, r) && multiset(r) == multiset(pp) + multiset{x}
  {
    if pp == [] || StepOf(l, pp[|pp| - 1]) >= StepOf(l, x) then
      LastWarm(l, pp, x);
      pp + [x]
    else
      var z := pp[|pp| - 1];
      var r := InsertWarm(l, pp[..|pp| - 1], x);
      assert pp == pp[..|pp| - 1] + [z];
      AllWarmer(l, pp[..|pp| - 1], x, r, z);
      r + [z]
  }

  lemma LastWarm(l: seq<Entry>, pp: seq<nat>, x: nat)
    requires WarmestFirst(l, pp) && (pp == [] || StepOf(l, pp[|pp| - 1]) >= StepOf(l, x))
    ensures WarmestFirst(l, pp + [x])
  {
    hide StepOf;
    forall k | 0 <= k < |pp| ensures StepOf(l, pp[k]) >= StepOf(l, x) {
      assert k < |pp| - 1 ==> StepOf(l, pp[k]) >= StepOf(l, pp[|pp| - 1]);
    }
  }

  lemma AllWarmer(l: seq<Entry>, pp: seq<nat>, x: nat, r: seq<nat>, z: nat)
    requires multiset(r) == multiset(pp) + multiset{x} && WarmestFirst(l, r)
    requires StepOf(l, x) >= StepOf(l, z) && WarmestFirst(l, pp + [z])
    ensures WarmestFirst(l, r + [z])
  {
    hide StepOf;
    forall k | 0 <= k < |pp| ensures StepOf(l, pp[k]) >= StepOf(l, z) {
      assert (pp + [z])[k] == pp[k] && (pp + [z])[|pp|] == z;
    }
    forall k | 0 <= k < |r| ensures StepOf(l, r[k]) >= StepOf(l, z) {
      assert r[k] in multiset(r);
      assert r[k] in pp || r[k] == x;
    }
  }

  /** The stable sort by recency, warmest first. */
  function SortWarm(l: seq<Entry>, pp: seq<nat>): (r: seq<nat>)
    ensures WarmestFirst(l, r) && multiset(r) == multiset(pp)
  {
    if pp == [] then []
    else
      assert pp == pp[..|pp| - 1] + [pp[|pp| - 1]];
      InsertWarm(l, SortWarm(l, pp[..|pp| - 1]), pp[|pp| - 1])
  }

  lemma SamePages(pp: seq<nat>, qq: seq<nat>)
    requires multiset(pp) == multiset(qq) && forall j, k :: 0 <= j < k < |pp| ==> pp[j] != pp[k]
    ensures |pp| == |qq| && (forall x :: x in pp <==> x in qq)
    ensures forall j, k :: 0 <= j < k < |qq| ==> qq[j] != qq[k]
  {
    assert |pp| == |multiset(pp)| && |qq| == |multiset(qq)|;
    forall x ensures x in pp <==> x in qq {
      assert x in pp <==> x in multiset(pp);
      assert x in qq <==> x in multiset(qq);
    }
    forall j, k | 0 <= j < k < |qq| ensures qq[j] != qq[k] {
      if qq[j] == qq[k] {
        var x := qq[j];
        assert qq == qq[..j] + [x] + qq[j + 1..k] + [x] + qq[k + 1..];
        assert multiset(qq)[x] >= 2;
        OnceOnly(pp, x);
      }
    }
  }

  lemma {:induction false} OnceOnly(pp: seq<nat>, x: nat)
    requires forall j, k :: 0 <= j < k < |pp| ==> pp[j] != pp[k]
    ensures multiset(pp)[x] <= 1
  {
    if pp != [] {
      var n := |pp| - 1;
      OnceOnly(pp[..n], x);
      assert pp == pp[..n] + [pp[n]];
      if pp[n] == x {
        assert x !in pp[..n];
      }
    }
  }

  // ----- The pages of a super-block -----

  lemma PagesOf(c: Config, s: nat, x: nat)
    requires c.F > 0
    ensures Sb(c, x) == s <==> s * c.F <= x < s * c.F + c.F
  {
    Divide(x, c.F, s);
  }

  lemma Divide(x: nat, f: nat, s: nat)
    requires f > 0
    ensures x / f == s <==> s * f <= x < s * f + f
  {
    var d := x / f;
    assert x == d * f + x % f;
    if d < s {
      assert (d + 1) * f <= s * f;
    } else if s < d {
      assert (s + 1) * f <= d * f;
    }
  }

  /** A super-block below the last whole one has all its pages. */
  lemma WholeSuperBlock(c: Config, s: nat)
    requires c.F > 0 && s < SuperBlocks(c)
    ensures s * c.F + c.F <= c.pages
  {
    var d := c.pages / c.F;
    assert c.pages == d * c.F + c.pages % c.F;
    Multiples(s + 1, d, c.F);
    Multiples(s, s, c.F);
  }

  lemma {:induction false} Multiples(a: nat, b: nat, f: nat)
    ensures a <= b ==> a * f <= b * f
    ensures (a + 1) * f == a * f + f
  {
    if a < b {
      assert b * f == (b - 1) * f + f;
      Multiples(a, b - 1, f);
    }
  }

  // ----- Which super-block to vacate -----

  /** Some page of the super-block is referenced by a running request. */
  ghost predicate HasLive(c: Config, refs: seq<int>, s: nat)
    requires c.F > 0 && |refs| == c.pages
  {
    exists x: nat :: x < c.pages && Sb(c, x) == s && refs[x] > 0
  }

  /** Passed over when a super-block is chosen: reserved, expert-held, pinned or live. */
  ghost predicate Barred(c: Config, p: Pool, s: nat)
    requires c.F > 0 && |p.refs| == c.pages
  {
    s == 0 || s in p.holder || Pinned(p.layers, s) || HasLive(c, p.refs, s)
  }

  /** How many of the n coldest pages lie in a super-block. */
  function ColdCount(c: Config, lru: seq<Entry>, n: nat, s: nat): nat
    requires c.F > 0 && n <= |lru|
  {
    if n == 0 then 0 else ColdCount(c, lru, n - 1, s) + if Sb(c, lru[n - 1].key) == s then 1 else 0
  }

  /** The position of a super-block's coldest page among the n coldest, or n. */
  function FirstIn(c: Config, lru: seq<Entry>, n: nat, s: nat): (k: nat)
    requires c.F > 0 && n <= |lru|
    ensures k <= n && (k < n ==> Sb(c, lru[k].key) == s)
    ensures forall j :: 0 <= j < k ==> Sb(c, lru[j].key) != s
  {
    if n == 0 then 0
    else
      var k := FirstIn(c, lru, n - 1, s);
      if k < n - 1 || Sb(c, lru[n - 1].key) == s then k else n
  }

  /** The rank: most cold pages first, then the colder coldest page, and in a stable sort
      the one that was sighted first. */
  ghost predicate RanksBefore(c: Config, lru: seq<Entry>, n: nat, s: nat, t: nat)
    requires c.F > 0 && n <= |lru| && FirstIn(c, lru, n, s) < n && FirstIn(c, lru, n, t) < n
  {
    var (a, b) := (ColdCount(c, lru, n, s), ColdCount(c, lru, n, t));
    var (j, k) := (FirstIn(c, lru, n, s), FirstIn(c, lru, n, t));
    a > b || (a == b && (lru[j].step < lru[k].step || (lru[j].step == lru[k].step && j <= k)))
  }

  /** s is what a search over the n coldest pages should settle on. */
  ghost predicate Cheapest(c: Config, p: Pool, n: nat, s: nat)
    requires c.F > 0 && |p.refs| == c.pages && n <= |p.lru|
  {
    && FirstIn(c, p.lru, n, s) < n && !Barred(c, p, s)
    && (forall t :: FirstIn(c, p.lru, n, t) < n && !Barred(c, p, t) ==> RanksBefore(c, p.lru, n, s, t))
  }

  /** Every super-block among the n coldest pages is passed over. */
  ghost predicate AllBarred(c: Config, p: Pool, n: nat)
    requires c.F > 0 && |p.refs| == c.pages && n <= |p.lru|
  {
    forall k :: 0 <= k < n ==> Barred(c, p, Sb(c, p.lru[k].key))
  }

  /** n is where the search stops: the end of the first stretch of F pages, or of the list,
      that is not passed over entirely. */
  ghost predicate SearchedTo(c: Config, p: Pool, n: nat)
    requires c.F > 0 && |p.refs| == c.pages
  {
    && n <= |p.lru|
    && exists m: nat :: m <= n <= m + c.F && (n == m + c.F || n == |p.lru|) && m % c.F == 0 && AllBarred(c, p, m)
  }

  /** What the whole search settles on. */
  ghost predicate Top(c: Config, p: Pool, s: nat)
    requires c.F > 0 && |p.refs| == c.pages
  {
    exists n: nat :: SearchedTo(c, p, n) && Cheapest(c, p, n, s)
  }

  /** All F pages of the super-block exist. */
  predicate Whole(c: Config, s: nat) { s * c.F + c.F <= c.pages }

  /** The search settles on a super-block that runs past the last page. */
  ghost predicate Ragged(c: Config, p: Pool)
    requires c.F > 0 && |p.refs| == c.pages
  {
    exists s: nat :: Top(c, p, s) && !Whole(c, s)
  }

  lemma SameFirst(c: Config, lru: seq<Entry>, n: nat, s: nat, t: nat)
    requires c.F > 0 && n <= |lru| && FirstIn(c, lru, n, s) == FirstIn(c, lru, n, t) < n
    ensures s == t
  {
  }

  lemma CheapestUnique(c: Config, p: Pool, n: nat, s: nat, t: nat)
    requires c.F > 0 && |p.refs| == c.pages && n <= |p.lru| && Cheapest(c, p, n, s) && Cheapest(c, p, n, t)
    ensures s == t
  {
    hide FirstIn, ColdCount, Barred;
    assert RanksBefore(c, p.lru, n, s, t) && RanksBefore(c, p.lru, n, t, s);
    SameFirst(c, p.lru, n, s, t);
  }

  lemma CheapestNotBarred(c: Config, p: Pool, n: nat, s: nat)
    requires c.F > 0 && |p.refs| == c.pages && n <= |p.lru| && Cheapest(c, p, n, s)
    ensures !AllBarred(c, p, n)
  {
    hide Barred;
    var k := FirstIn(c, p.lru, n, s);
    assert Sb(c, p.lru[k].key) == s;
  }

  /** The stretch that is searched is determined, and so is the super-block settled on. */
  lemma TopUnique(c: Config, p: Pool, s: nat, t: nat)
    requires c.F > 0 && |p.refs| == c.pages && Top(c, p, s) && Top(c, p, t)
    ensures s == t
  {
    hide Cheapest, AllBarred;
    var n: nat :| SearchedTo(c, p, n) && Cheapest(c, p, n, s);
    var m: nat :| SearchedTo(c, p, m) && Cheapest(c, p, m, t);
    CheapestNotBarred(c, p, n, s);
    CheapestNotBarred(c, p, m, t);
    NotFurther(c, p, n, m);
    NotFurther(c, p, m, n);
    CheapestUnique(c, p, n, s, t);
  }

  lemma NotFurther(c: Config, p: Pool, n: nat, m: nat)
    requires c.F > 0 && |p.refs| == c.pages && n <= |p.lru| && m <= |p.lru|
    requires SearchedTo(c, p, n) && SearchedTo(c, p, m) && !AllBarred(c, p, n)
    ensures m <= n
  {
    hide AllBarred;
    var a: nat :| a <= n <= a + c.F && (n == a + c.F || n == |p.lru|) && a % c.F == 0 && AllBarred(c, p, a);
    var b: nat :| b <= m <= b + c.F && (m == b + c.F || m == |p.lru|) && b % c.F == 0 && AllBarred(c, p, b);
    if n < m {
      Steps(a, b, c.F);
      FewerBarred(c, p, n, b);
    }
  }

  /** Multiples of f that differ do so by at least f. */
  lemma Steps(a: nat, b: nat, f: nat)
    requires f > 0 && a % f == 0 && b % f == 0
    ensures a < b ==> a + f <= b
  {
    var (x, y) := (a / f, b / f);
    assert a == x * f && b == y * f;
    Multiples(x + 1, y, f);
    Multiples(x, y, f);
    Multiples(y, x, f);
  }

  lemma FewerBarred(c: Config, p: Pool, n: nat, m: nat)
    requires c.F > 0 && |p.refs| == c.pages && n <= m <= |p.lru| && AllBarred(c, p, m)
    ensures AllBarred(c, p, n)
  {
    hide Barred, Sb;
  }

  /** With everything passed over there is nothing to settle on. */
  lemma NoTop(c: Config, p: Pool)
    requires c.F > 0 && |p.refs| == c.pages && AllBarred(c, p, |p.lru|)
    ensures forall s: nat :: !Top(c, p, s)
  {
    hide AllBarred, Cheapest;
    forall s: nat ensures !Top(c, p, s) {
      if Top(c, p, s) {
        var n: nat :| SearchedTo(c, p, n) && Cheapest(c, p, n, s);
        CheapestNotBarred(c, p, n, s);
        FewerBarred(c, p, n, |p.lru|);
      }
    }
  }

  lemma TopIs(c: Config, p: Pool, s: nat)
    requires c.F > 0 && |p.refs| == c.pages && Top(c, p, s)
    ensures !Barred(c, p, s) && s > 0 && exists e :: e in p.lru && Sb(c, e.key) == s
  {
    hide Barred, Sb, AllBarred;
    var n: nat :| SearchedTo(c, p, n) && Cheapest(c, p, n, s);
    assert p.lru[FirstIn(c, p.lru, n, s)] in p.lru;
    ZeroBarred(c, p);
  }

  lemma ZeroBarred(c: Config, p: Pool)
    requires c.F > 0 && |p.refs| == c.pages
    ensures Barred(c, p, 0)
  {
  }

  lemma TopOnly(c: Config, p: Pool, s: nat)
    requires c.F > 0 && |p.refs| == c.pages && Top(c, p, s)
    ensures Ragged(c, p) <==> !Whole(c, s)
  {
    hide Top, Whole;
    forall t: nat | Top(c, p, t) ensures t == s {
      TopUnique(c, p, s, t);
    }
  }

  /** The super-blocks seen so far, in the order of their first sighting. */
  ghost predicate InSightOrder(c: Config, lru: seq<Entry>, n: nat, order: seq<nat>)
    requires c.F > 0 && n <= |lru|
  {
    && (forall s :: s in order <==> FirstIn(c, lru, n, s) < n)
    && (forall j, k :: 0 <= j < k < |order| ==> FirstIn(c, lru, n, order[j]) < FirstIn(c, lru, n, order[k]))
  }

  lemma SightNext(c: Config, lru: seq<Entry>, n: nat, order: seq<nat>)
    requires c.F > 0 && n < |lru| && InSightOrder(c, lru, n, order)
    ensures
      var s := Sb(c, lru[n].key);
      InSightOrder(c, lru, n + 1, if s in order then order else order + [s])
  {
    hide Sb, FirstIn;
    var s := Sb(c, lru[n].key);
    forall t: nat
      ensures FirstIn(c, lru, n + 1, t) == if FirstIn(c, lru, n, t) < n || t == s then FirstIn(c, lru, n, t) else n + 1
      ensures FirstIn(c, lru, n, t) <= n
    {
      CountNext(c, lru, n, t);
    }
    forall k | 0 <= k < |order| ensures FirstIn(c, lru, n + 1, order[k]) == FirstIn(c, lru, n, order[k]) < n {
      assert order[k] in order;
    }
  }

  /** The tallies of the walk over the n coldest pages. */
  ghost predicate Tallied(c: Config, lru: seq<Entry>, n: nat, count: map<nat, nat>, oldest: map<nat, nat>)
    requires c.F > 0 && n <= |lru|
  {
    && count.Keys == oldest.Keys
    && (forall s :: s in count <==> FirstIn(c, lru, n, s) < n)
    && (forall s :: s in count ==> count[s] == ColdCount(c, lru, n, s) && oldest[s] == lru[FirstIn(c, lru, n, s)].step)
  }

  lemma {:induction false} NoneCounted(c: Config, lru: seq<Entry>, n: nat, s: nat)
    requires c.F > 0 && n <= |lru|
    ensures FirstIn(c, lru, n, s) == n <==> ColdCount(c, lru, n, s) == 0
  {
    if n > 0 { NoneCounted(c, lru, n - 1, s); }
  }

  lemma CountNext(c: Config, lru: seq<Entry>, n: nat, t: nat)
    requires c.F > 0 && n < |lru|
    ensures
      var s := Sb(c, lru[n].key);
      && FirstIn(c, lru, n + 1, t) == (if FirstIn(c, lru, n, t) < n || t == s then FirstIn(c, lru, n, t) else n + 1)
      && ColdCount(c, lru, n + 1, t) == ColdCount(c, lru, n, t) + if t == s then 1 else 0
  {
    hide Sb;
  }

  lemma TallyNext(c: Config, lru: seq<Entry>, n: nat, count: map<nat, nat>, oldest: map<nat, nat>)
    requires c.F > 0 && n < |lru| && Tallied(c, lru, n, count, oldest)
    ensures
      var s := Sb(c, lru[n].key);
      Tallied(c, lru, n + 1, count[s := (if s in count then count[s] else 0) + 1],
              if s in oldest then oldest else oldest[s := lru[n].step])
  {
    hide Sb, FirstIn, ColdCount;
    var s := Sb(c, lru[n].key);
    NoneCounted(c, lru, n, s);
    forall t: nat
      ensures FirstIn(c, lru, n + 1, t)
           == if FirstIn(c, lru, n, t) < n || t == s then FirstIn(c, lru, n, t) else n + 1
      ensures ColdCount(c, lru, n + 1, t) == ColdCount(c, lru, n, t) + if t == s then 1 else 0
    {
      CountNext(c, lru, n, t);
    }
    var count' := count[s := (if s in count then count[s] else 0) + 1];
    var oldest' := if s in oldest then oldest else oldest[s := lru[n].step];
    forall t ensures t in count' <==> FirstIn(c, lru, n + 1, t) < n + 1 { }
    forall t | t in count' ensures count'[t] == ColdCount(c, lru, n + 1, t) &&
        oldest'[t] == lru[FirstIn(c, lru, n + 1, t)].step { }
  }

  /** The recency a super-block is scored by: its coldest page, or its warmest. */
  ghost predicate ScoreOk(c: Config, lru: seq<Entry>, s: nat, score: int, warmest: bool)
    requires c.F > 0
  {
    && (exists e :: e in lru && Sb(c, e.key) == s && e.step == score)
    && (forall e :: e in lru && Sb(c, e.key) == s ==> if warmest then e.step <= score else score <= e.step)
  }

  lemma FirstIsColdest(c: Config, lru: seq<Entry>, n: nat, s: nat)
    requires c.F > 0 && n <= |lru| && Sorted(lru) && FirstIn(c, lru, n, s) < n
    ensures ScoreOk(c, lru, s, lru[FirstIn(c, lru, n, s)].step, false)
  {
    hide Sb;
    var k := FirstIn(c, lru, n, s);
    assert lru[k] in lru;
    forall e | e in lru && Sb(c, e.key) == s ensures lru[k].step <= e.step {
      var j :| 0 <= j < |lru| && lru[j] == e;
      assert k <= j;
    }
  }

  /** A super-block that runs past the last page exists only if the pages do not divide evenly. */
  lemma PartialSuperBlock(c: Config, s: nat)
    requires c.F > 0 && s * c.F < c.pages
    ensures s * c.F + c.F <= c.pages ==> s < SuperBlocks(c)
    ensures s * c.F + c.F > c.pages ==> c.pages % c.F != 0
  {
    var d := c.pages / c.F;
    assert c.pages == d * c.F + c.pages % c.F;
    if s < d {
      assert (s + 1) * c.F <= d * c.F;
    } else {
      assert d * c.F <= s * c.F;
    }
  }
}
