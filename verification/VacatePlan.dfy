/**
  What vacating a KV super-block does to the cached prefixes, followed page by page:
  some are killed, some move, and the recency list of the survivors does not change.
 */
module VacatePlan {
  import opened Recency

  /** The address of a page after some pages have moved. */
  ghost function Loc(moved: map<nat, nat>, x: nat): nat { if x in moved then moved[x] else x }

  /** A recency list without the entries of some pages. */
  ghost function Without(l: seq<Entry>, killed: set<nat>): seq<Entry> {
    if l == [] then []
    else (if l[0].key in killed then [] else [l[0]]) + Without(l[1..], killed)
  }

  /** Every survivor of l0 is in lru, in the same order and with the same step, at its new
      address, and that address carries the hash its old one carried. */
  ghost predicate Survive(h0: map<nat, nat>, hashOf: map<nat, nat>, kept: seq<Entry>, lru: seq<Entry>,
                          moved: map<nat, nat>)
  {
    && |lru| == |kept|
    && (forall k :: 0 <= k < |lru| ==> lru[k] == Entry(Loc(moved, kept[k].key), kept[k].step))
    && (forall k :: 0 <= k < |lru| ==>
                      kept[k].key in h0 && lru[k].key in hashOf && hashOf[lru[k].key] == h0[kept[k].key])
  }

  lemma {:induction false} WithoutNone(l: seq<Entry>)
    ensures Without(l, {}) == l
  {
    if l != [] { WithoutNone(l[1..]); }
  }

  lemma {:induction false} WithoutMembers(l: seq<Entry>, killed: set<nat>)
    ensures forall e :: e in Without(l, killed) <==> e in l && e.key !in killed
  {
    if l != [] {
      WithoutMembers(l[1..], killed);
      assert l == [l[0]] + l[1..];
    }
  }

  lemma {:induction false} WithoutMore(l: seq<Entry>, killed: set<nat>, x: nat)
    ensures Without(l, killed + {x}) == Without(Without(l, killed), {x})
  {
    if l != [] {
      WithoutMore(l[1..], killed, x);
      var r := Without(l[1..], killed);
      if l[0].key in killed {
        assert Without(l, killed) == r;
      } else {
        assert Without(l, killed) == [l[0]] + r && ([l[0]] + r)[1..] == r;
      }
    }
  }

  lemma {:induction false} WithoutAbsent(l: seq<Entry>, x: nat)
    requires forall e :: e in l ==> e.key != x
    ensures Without(l, {x}) == l
  {
    if l != [] { WithoutAbsent(l[1..], x); }
  }

  lemma {:induction false} WithoutOne(l: seq<Entry>, k: nat)
    requires Distinct(l) && k < |l|
    ensures Without(l, {l[k].key}) == RemoveAt(l, k)
  {
    if k == 0 {
      WithoutAbsent(l[1..], l[0].key);
    } else {
      var t := l[1..];
      assert l[0].key != l[k].key && t[k - 1] == l[k];
      assert Distinct(t);
      hide Distinct;
      WithoutOne(t, k - 1);
      assert RemoveAt(l, k) == [l[0]] + RemoveAt(t, k - 1);
    }
  }

  lemma {:induction false} WithoutDistinct(l: seq<Entry>, killed: set<nat>)
    requires Distinct(l)
    ensures Distinct(Without(l, killed))
  {
    if l != [] {
      WithoutDistinct(l[1..], killed);
      WithoutMembers(l[1..], killed);
      var r := Without(l[1..], killed);
      forall k | 0 <= k < |r| ensures r[k].key != l[0].key {
        assert r[k] in r;
        var j :| 0 <= j < |l[1..]| && l[1..][j] == r[k];
        assert l[j + 1] == r[k];
      }
    }
  }

  lemma EvictOne(h0: map<nat, nat>, hashOf: map<nat, nat>, kept: seq<Entry>, lru: seq<Entry>, moved: map<nat, nat>,
                 k: nat)
    requires Survive(h0, hashOf, kept, lru, moved) && Distinct(lru) && k < |lru|
    ensures Survive(h0, hashOf - {lru[k].key}, RemoveAt(kept, k), Remove(lru, lru[k].key), moved)
  {
    FindUnique(lru, k);
    var r, m, x := RemoveAt(lru, k), RemoveAt(kept, k), lru[k].key;
    forall j | 0 <= j < |r|
      ensures r[j] == Entry(Loc(moved, m[j].key), m[j].step) && m[j].key in h0
      ensures r[j].key != x && r[j].key in hashOf && hashOf[r[j].key] == h0[m[j].key]
    {
      var i := if j < k then j else j + 1;
      assert r[j] == lru[i] && m[j] == kept[i] && (i < k || k < i);
    }
    hide Distinct, RemoveAt;
  }

  lemma MoveOne(h0: map<nat, nat>, hashOf: map<nat, nat>, kept: seq<Entry>, lru: seq<Entry>, moved: map<nat, nat>,
                k: nat, dst: nat, step: nat)
    requires Survive(h0, hashOf, kept, lru, moved) && Distinct(lru) && Distinct(kept) && k < |lru|
    requires kept[k].key !in moved && dst !in hashOf
    ensures
      var src := kept[k].key;
      lru[k].key == src && src in hashOf &&
      Survive(h0, (hashOf - {src})[dst := hashOf[src]], kept, Rename(lru, src, dst, step), moved[src := dst])
  {
    var src := kept[k].key;
    assert lru[k].key == src && lru[k] in lru;
    assert src in Keys(lru);
    forall e | e in lru ensures e.key != dst {
      var j :| 0 <= j < |lru| && lru[j] == e;
    }
    RenameInPlace(lru, src, dst, step);
    hide Rename, Keys;
    forall j | 0 <= j < |lru| && j != k ensures lru[j].key != src && kept[j].key != src {
      assert j < k || k < j;
    }
  }

  // ----- The plan: who moves where, who is killed -----

  ghost function Among(s: seq<nat>, a: nat, b: nat): set<nat>
    requires a <= b <= |s|
  {
    set k | a <= k < b :: s[k]
  }

  ghost function ColdKeys(cold: seq<Entry>, t: nat): set<nat>
    requires t <= |cold|
  {
    set k | 0 <= k < t :: cold[k].key
  }

  /** The pages to vacate, the free holes and the displaceable pages: three disjoint lists. */
  ghost predicate Layout(pp: seq<nat>, holes: seq<nat>, cold: seq<Entry>, h0: map<nat, nat>) {
    && (forall j, k :: 0 <= j < k < |pp| ==> pp[j] != pp[k])
    && (forall j, k :: 0 <= j < k < |holes| ==> holes[j] != holes[k])
    && Distinct(cold)
    && (forall j :: 0 <= j < |pp| ==> pp[j] in h0)
    && (forall j :: 0 <= j < |holes| ==> holes[j] !in h0)
    && (forall j :: 0 <= j < |cold| ==> cold[j].key in h0)
    && (forall j, k :: 0 <= j < |pp| && 0 <= k < |cold| ==> pp[j] != cold[k].key)
  }

  /** After the first i pages, t of which displaced a colder page: the pages before
      |holes| + t have moved and, once one could not, all later ones are killed. */
  ghost predicate Plan(pp: seq<nat>, ws: seq<nat>, holes: seq<nat>, cold: seq<Entry>, i: nat, t: nat, stopped: bool,
                       killed: set<nat>, moved: map<nat, nat>)
  {
    var h := |holes|;
    && |ws| == |pp| && i <= |pp| && h <= |pp| && t <= |cold|
    && (if stopped then h + t < i else if i <= h then t == 0 else i == h + t)
    && killed == ColdKeys(cold, t) + (if stopped then Among(pp, h + t, i) else {})
    && moved.Keys == Among(pp, 0, if stopped then h + t else i)
    && (forall x :: x in moved ==> moved[x] in Among(holes, 0, Min(i, h)) || moved[x] in ColdKeys(cold, t))
    && (forall j :: 0 <= j < (if stopped then h + t else i) ==>
         pp[j] in moved && moved[pp[j]] == if j < h then holes[j] else cold[j - h].key)
    && (forall j :: 0 <= j < t ==> h + j < |ws| && cold[j].step < ws[h + j])
    && (stopped ==> t == |cold| || cold[t].step >= ws[h + t])
  }

  lemma PlanStart(pp: seq<nat>, ws: seq<nat>, holes: seq<nat>, cold: seq<Entry>)
    requires |ws| == |pp| && |holes| <= |pp|
    ensures Plan(pp, ws, holes, cold, 0, 0, false, {}, map[])
  {
    assert Among(pp, 0, 0) == {} && ColdKeys(cold, 0) == {};
  }

  lemma PlanHole(pp: seq<nat>, ws: seq<nat>, holes: seq<nat>, cold: seq<Entry>, i: nat, t: nat,
                 killed: set<nat>, moved: map<nat, nat>)
    requires Plan(pp, ws, holes, cold, i, t, false, killed, moved) && i < |holes| && pp[i] !in moved
    ensures Plan(pp, ws, holes, cold, i + 1, t, false, killed, moved[pp[i] := holes[i]])
  {
    assert Among(pp, 0, i + 1) == Among(pp, 0, i) + {pp[i]};
    assert Among(holes, 0, i + 1) == Among(holes, 0, i) + {holes[i]};
    hide Among, ColdKeys;
  }

  lemma PlanDisplace(pp: seq<nat>, ws: seq<nat>, holes: seq<nat>, cold: seq<Entry>, i: nat, t: nat,
                     killed: set<nat>, moved: map<nat, nat>)
    requires Plan(pp, ws, holes, cold, i, t, false, killed, moved) && |holes| <= i < |pp| && pp[i] !in moved
    requires t < |cold| && cold[t].step < ws[i]
    ensures Plan(pp, ws, holes, cold, i + 1, t + 1, false, killed + {cold[t].key}, moved[pp[i] := cold[t].key])
  {
    assert Among(pp, 0, i + 1) == Among(pp, 0, i) + {pp[i]};
    assert ColdKeys(cold, t + 1) == ColdKeys(cold, t) + {cold[t].key};
    hide Among, ColdKeys;
  }

  lemma PlanEvict(pp: seq<nat>, ws: seq<nat>, holes: seq<nat>, cold: seq<Entry>, i: nat, t: nat, stopped: bool,
                  killed: set<nat>, moved: map<nat, nat>)
    requires Plan(pp, ws, holes, cold, i, t, stopped, killed, moved) && |holes| <= i < |pp|
    requires stopped || t == |cold| || cold[t].step >= ws[i]
    ensures Plan(pp, ws, holes, cold, i + 1, t, true, killed + {pp[i]}, moved)
  {
    var q := |holes| + t;
    assert Among(pp, q, i + 1) == (if stopped then Among(pp, q, i) else {}) + {pp[i]};
    hide Among, ColdKeys;
  }

  /** The page at hand is neither killed nor moved, nor is it anyone's new address. */
  lemma Untouched(pp: seq<nat>, ws: seq<nat>, holes: seq<nat>, cold: seq<Entry>, h0: map<nat, nat>,
                  i: nat, t: nat, stopped: bool, killed: set<nat>, moved: map<nat, nat>)
    requires Plan(pp, ws, holes, cold, i, t, stopped, killed, moved) && Layout(pp, holes, cold, h0) && i < |pp|
    ensures pp[i] !in killed && pp[i] !in moved && pp[i] !in moved.Values
    ensures i < |holes| ==> holes[i] !in moved.Values
    ensures !stopped && t < |cold| ==>
              cold[t].key !in killed && cold[t].key !in moved && cold[t].key !in moved.Values && cold[t].key != pp[i]
  {
    forall x | x in moved ensures moved[x] != pp[i]
      && (i < |holes| ==> moved[x] != holes[i]) && (t < |cold| ==> moved[x] != cold[t].key) { }
  }

  // ----- What the finished plan promises -----

  lemma ColdestByIndex(pp: seq<nat>, ws: seq<nat>, holes: seq<nat>, cold: seq<Entry>, all: seq<Entry>,
                       t: nat, stopped: bool, killed: set<nat>, moved: map<nat, nat>)
    requires Plan(pp, ws, holes, cold, |pp|, t, stopped, killed, moved)
    requires Sorted(all) && cold == all[..Min(|pp|, |all|)]
    requires forall x, y :: 0 <= x < y < |ws| ==> ws[x] >= ws[y]
    ensures
      var q := |holes| + t;
      && q <= |pp|
      && (forall a, j :: 0 <= a < t && 0 <= j < q ==> all[a].step <= ws[j])
      && (forall a, b :: 0 <= a < t <= b < |all| ==> all[a].step <= all[b].step)
      && (forall a, j :: 0 <= j < q <= a < |pp| ==> ws[a] <= ws[j])
      && (forall a, b :: q <= a < |pp| && t <= b < |all| ==> ws[a] <= all[b].step)
  {
    var q := |holes| + t;
    forall a, j | 0 <= a < t && 0 <= j < q ensures all[a].step <= ws[j] {
      assert cold[t - 1].step < ws[|holes| + (t - 1)];
      assert a < t - 1 ==> all[a].step <= all[t - 1].step;
    }
    forall a, b | q <= a < |pp| && t <= b < |all| ensures ws[a] <= all[b].step {
      assert stopped && t < |cold| && ws[q] <= cold[t].step;
      assert t < b ==> all[t].step <= all[b].step;
    }
  }

  /** Who goes where, of pages served in turn: the first m move, into the holes in order and then
      over the coldest candidates as long as these are strictly colder; the rest die. */
  ghost predicate Exchanged(pp: seq<nat>, ws: seq<nat>, holes: seq<nat>, cold: seq<Entry>, m: nat,
                            killed: set<nat>, moved: map<nat, nat>)
  {
    var h := Min(|pp|, |holes|);
    && |ws| == |pp| && h <= m <= |pp| && m - h <= |cold|
    && moved.Keys == Among(pp, 0, m)
    && (forall j :: 0 <= j < m ==> pp[j] in moved && moved[pp[j]] == if j < h then holes[j] else cold[j - h].key)
    && killed == Among(pp, m, |pp|) + ColdKeys(cold, m - h)
    && (forall j :: 0 <= j < m - h ==> cold[j].step < ws[h + j])
    && (m < |pp| ==> m - h == |cold| || cold[m - h].step >= ws[m])
  }

  /** The finished plan says so, although it looked at the first holes and candidates only. */
  lemma PlanDone(pp: seq<nat>, ws: seq<nat>, holes: seq<nat>, cold: seq<Entry>, allHoles: seq<nat>, all: seq<Entry>,
                 t: nat, stopped: bool, killed: set<nat>, moved: map<nat, nat>)
    requires Plan(pp, ws, holes, cold, |pp|, t, stopped, killed, moved)
    requires holes == allHoles[..Min(|pp|, |allHoles|)] && cold == all[..Min(|pp|, |all|)]
    ensures Exchanged(pp, ws, allHoles, all, if stopped then |holes| + t else |pp|, killed, moved)
  {
    hide Among, ColdKeys;
    ColdKeysFrom(all, Min(|pp|, |all|), t);
    NoneAmong(pp);
    var h, m := |holes|, if stopped then |holes| + t else |pp|;
    assert |ws| == |pp| && h == Min(|pp|, |allHoles|) && h <= m <= |pp| && m - h <= |cold| && (m - h == t || m == h);
    assert moved.Keys == Among(pp, 0, m) && killed == Among(pp, m, |pp|) + ColdKeys(all, m - h);
    forall j | 0 <= j < m
      ensures pp[j] in moved && moved[pp[j]] == if j < h then allHoles[j] else all[j - h].key
    {
      assert j < h ==> holes[j] == allHoles[j];
      assert j >= h ==> cold[j - h] == all[j - h];
    }
    forall j | 0 <= j < m - h ensures all[j].step < ws[h + j] {
      assert cold[j] == all[j];
    }
    if m < |pp| && m - h < |all| {
      assert m - h < |cold| && cold[m - h] == all[m - h];
    }
  }

  lemma NoneAmong(pp: seq<nat>)
    ensures Among(pp, |pp|, |pp|) == {}
  {
  }

  lemma ColdKeysFrom(all: seq<Entry>, n: nat, t: nat)
    requires t <= n <= |all|
    ensures ColdKeys(all[..n], t) == ColdKeys(all, t)
  {
  }

  /** One of the entries that vacating puts at risk. */
  ghost predicate AtStake(pp: seq<nat>, ws: seq<nat>, all: seq<Entry>, e: Entry)
    requires |ws| == |pp|
  {
    e in all || exists j :: 0 <= j < |pp| && e == Entry(pp[j], ws[j])
  }

  /** Once every page is planned, the killed pages are the coldest of all that were at
      stake: the pages to vacate, and all the displaceable pages, of which cold is the start. */
  lemma KilledAreColdest(pp: seq<nat>, ws: seq<nat>, holes: seq<nat>, cold: seq<Entry>, all: seq<Entry>,
                         h0: map<nat, nat>, t: nat, stopped: bool, killed: set<nat>, moved: map<nat, nat>,
                         u: Entry, v: Entry)
    requires Plan(pp, ws, holes, cold, |pp|, t, stopped, killed, moved) && Layout(pp, holes, all, h0)
    requires Sorted(all) && cold == all[..Min(|pp|, |all|)]
    requires forall x, y :: 0 <= x < y < |ws| ==> ws[x] >= ws[y]
    requires AtStake(pp, ws, all, u) && AtStake(pp, ws, all, v) && u.key in killed && v.key !in killed
    ensures u.step <= v.step
  {
    ColdestByIndex(pp, ws, holes, cold, all, t, stopped, killed, moved);
    var a := Position(pp, ws, holes, cold, all, h0, t, stopped, killed, moved, u);
    var b := Position(pp, ws, holes, cold, all, h0, t, stopped, killed, moved, v);
    hide Plan, Layout, Sorted, AtStake;
  }

  /** Where an entry at stake sits, and on which side of the cut. */
  lemma Position(pp: seq<nat>, ws: seq<nat>, holes: seq<nat>, cold: seq<Entry>, all: seq<Entry>, h0: map<nat, nat>,
                 t: nat, stopped: bool, killed: set<nat>, moved: map<nat, nat>, e: Entry) returns (k: nat)
    requires Plan(pp, ws, holes, cold, |pp|, t, stopped, killed, moved) && Layout(pp, holes, all, h0)
    requires cold == all[..Min(|pp|, |all|)] && AtStake(pp, ws, all, e)
    ensures (k < |all| && e == all[k] && (e.key in killed <==> k < t)) ||
            (k < |pp| && e == Entry(pp[k], ws[k]) && (e.key in killed <==> |holes| + t <= k))
  {
    var q := |holes| + t;
    assert q <= |pp| && killed == ColdKeys(cold, t) + Among(pp, q, |pp|) by { NoneAmong(pp); }
    hide Plan;
    ColdKeysFrom(all, Min(|pp|, |all|), t);
    if e in all {
      k := PositionCold(pp, all, h0, t, q, e);
    } else {
      k :| 0 <= k < |pp| && e == Entry(pp[k], ws[k]);
      PositionPage(pp, all, h0, t, q, k);
    }
  }

  lemma PositionCold(pp: seq<nat>, all: seq<Entry>, h0: map<nat, nat>, t: nat, q: nat, e: Entry) returns (k: nat)
    requires Layout(pp, [], all, h0) && t <= |all| && q <= |pp| && e in all
    ensures k < |all| && e == all[k] && (e.key in ColdKeys(all, t) + Among(pp, q, |pp|) <==> k < t)
  {
    k :| 0 <= k < |all| && all[k] == e;
    assert forall j :: 0 <= j < |all| && all[j].key == e.key ==> j == k;
  }

  lemma PositionPage(pp: seq<nat>, all: seq<Entry>, h0: map<nat, nat>, t: nat, q: nat, k: nat)
    requires Layout(pp, [], all, h0) && t <= |all| && q <= |pp| && k < |pp|
    ensures pp[k] in ColdKeys(all, t) + Among(pp, q, |pp|) <==> q <= k
  {
    assert forall j :: 0 <= j < |pp| && pp[j] == pp[k] ==> j == k;
  }

  lemma {:induction false} AmongSize(s: seq<nat>, a: nat, b: nat)
    requires a <= b <= |s| && forall j, k :: 0 <= j < k < |s| ==> s[j] != s[k]
    ensures |Among(s, a, b)| == b - a
  {
    if a < b {
      AmongSize(s, a, b - 1);
      assert Among(s, a, b) == Among(s, a, b - 1) + {s[b - 1]};
    } else {
      assert Among(s, a, b) == {};
    }
  }

  lemma {:induction false} ColdKeysSize(cold: seq<Entry>, t: nat)
    requires t <= |cold| && Distinct(cold)
    ensures |ColdKeys(cold, t)| == t
  {
    if t > 0 {
      ColdKeysSize(cold, t - 1);
      assert ColdKeys(cold, t) == ColdKeys(cold, t - 1) + {cold[t - 1].key};
    } else {
      assert ColdKeys(cold, 0) == {};
    }
  }

  /** As many pages are killed as found no free hole. */
  lemma KilledCount(pp: seq<nat>, ws: seq<nat>, holes: seq<nat>, cold: seq<Entry>, h0: map<nat, nat>,
                    t: nat, stopped: bool, killed: set<nat>, moved: map<nat, nat>)
    requires Plan(pp, ws, holes, cold, |pp|, t, stopped, killed, moved) && Layout(pp, holes, cold, h0)
    ensures |killed| == |pp| - |holes|
  {
    var q := |holes| + t;
    ColdKeysSize(cold, t);
    if stopped {
      AmongSize(pp, q, |pp|);
      assert ColdKeys(cold, t) !! Among(pp, q, |pp|);
    }
  }

  // ----- The hash table along the way -----

  /** Exactly the pages neither killed nor moved keep their hash, besides the new addresses. */
  ghost predicate Hashes(h0: map<nat, nat>, hashOf: map<nat, nat>, killed: set<nat>, moved: map<nat, nat>) {
    && (forall x :: x in h0 && x !in killed && x !in moved ==> x in hashOf && hashOf[x] == h0[x])
    && (forall x :: x in hashOf ==> x in moved.Values || (x in h0 && x !in killed && x !in moved))
  }

  lemma HashesEvict(h0: map<nat, nat>, hashOf: map<nat, nat>, killed: set<nat>, moved: map<nat, nat>, x: nat)
    requires Hashes(h0, hashOf, killed, moved)
    ensures Hashes(h0, hashOf - {x}, killed + {x}, moved)
  {
  }

  lemma HashesMove(h0: map<nat, nat>, hashOf: map<nat, nat>, killed: set<nat>, moved: map<nat, nat>, x: nat, d: nat,
                   h: nat)
    requires Hashes(h0, hashOf, killed, moved) && x !in moved && (d in h0 ==> d in killed)
    ensures Hashes(h0, (hashOf - {x})[d := h], killed, moved[x := d])
  {
    var m := moved[x := d];
    assert d == m[x] && d in m.Values;
    forall y | y in moved.Values ensures y in m.Values {
      var z :| z in moved && moved[z] == y;
      assert m[z] == y;
    }
  }

  // ----- One page at a time -----

  /** How the hash table and the recency list stand to the ones vacating started from. */
  ghost predicate Progress(l0: seq<Entry>, h0: map<nat, nat>, lru: seq<Entry>, hashOf: map<nat, nat>,
                           killed: set<nat>, moved: map<nat, nat>)
  {
    Hashes(h0, hashOf, killed, moved) && Survive(h0, hashOf, Without(l0, killed), lru, moved)
  }

  lemma ProgressStart(l0: seq<Entry>, h0: map<nat, nat>)
    requires forall e :: e in l0 ==> e.key in h0
    ensures Progress(l0, h0, l0, h0, {}, map[])
  {
    WithoutNone(l0);
  }

  /** The index of a page that is neither killed nor moved. */
  lemma Standing(l0: seq<Entry>, h0: map<nat, nat>, lru: seq<Entry>, hashOf: map<nat, nat>,
                 killed: set<nat>, moved: map<nat, nat>, x: nat) returns (k: nat)
    requires Progress(l0, h0, lru, hashOf, killed, moved) && x in Keys(l0) && x !in killed && x !in moved
    ensures k < |lru| == |Without(l0, killed)| && Without(l0, killed)[k].key == lru[k].key == x && x in hashOf
    ensures lru[k] in l0
  {
    var e :| e in l0 && e.key == x;
    WithoutMembers(l0, killed);
    k :| 0 <= k < |lru| && Without(l0, killed)[k] == e;
  }

  lemma ProgressEvict(l0: seq<Entry>, h0: map<nat, nat>, lru: seq<Entry>, hashOf: map<nat, nat>,
                      killed: set<nat>, moved: map<nat, nat>, x: nat)
    requires Progress(l0, h0, lru, hashOf, killed, moved) && Distinct(l0) && Distinct(lru)
    requires x in Keys(l0) && x !in killed && x !in moved
    ensures Progress(l0, h0, Remove(lru, x), hashOf - {x}, killed + {x}, moved)
  {
    hide Survive, Hashes, Distinct, Without, Remove, Keys;
    var k := Standing(l0, h0, lru, hashOf, killed, moved, x);
    HashesEvict(h0, hashOf, killed, moved, x);
    EvictOne(h0, hashOf, Without(l0, killed), lru, moved, k);
    WithoutDistinct(l0, killed);
    WithoutMore(l0, killed, x);
    WithoutOne(Without(l0, killed), k);
  }

  lemma ProgressMove(l0: seq<Entry>, h0: map<nat, nat>, lru: seq<Entry>, hashOf: map<nat, nat>,
                     killed: set<nat>, moved: map<nat, nat>, x: nat, d: nat, step: nat)
    requires Progress(l0, h0, lru, hashOf, killed, moved) && Distinct(l0) && Distinct(lru)
    requires x in Keys(l0) && x !in killed && x !in moved && d !in hashOf && (d in h0 ==> d in killed)
    ensures x in hashOf
    ensures Progress(l0, h0, Rename(lru, x, d, step), (hashOf - {x})[d := hashOf[x]], killed, moved[x := d])
  {
    hide Survive, Hashes, Distinct, Without, Rename, Keys;
    var k := Standing(l0, h0, lru, hashOf, killed, moved, x);
    HashesMove(h0, hashOf, killed, moved, x, d, hashOf[x]);
    WithoutDistinct(l0, killed);
    MoveOne(h0, hashOf, Without(l0, killed), lru, moved, k, d, step);
  }
}
