/**
  Many allocations at once: what the driver holds while any of them are asleep and the
  others awake, and how each operation changes that.
 */
module CumemWorld {
  import opened ChunkPlan
  import opened CumemAllocator

  /** An allocation as a value. */
  datatype Slot = Slot(size: nat, sizes: seq<nat>, handles: seq<nat>)

  /** The driver's mappings, live handles and reservations, and the number of the next handle. */
  datatype World = World(maps: map<nat, Segment>, live: set<nat>, reserved: map<nat, nat>, next: nat)

  ghost predicate SlotOk(s: Slot) {
    && |s.handles| == |s.sizes| && (forall k :: 0 <= k < |s.sizes| ==> s.sizes[k] > 0)
    && Total(s.sizes) == s.size > 0
  }

  ghost function StartSet(p: nat, s: Slot): set<nat> { set a | a in Starts(p, s.sizes) }

  ghost function HandleSet(s: Slot): set<nat> { set h | h in s.handles }

  // ----- The parts of the invariant -----

  /** Reserved ranges do not touch each other. */
  ghost predicate RangesApart(reserved: map<nat, nat>) {
    forall r, s :: r in reserved && s in reserved && r != s ==> r + reserved[r] <= s || s + reserved[s] <= r
  }

  /** The reservations are those of the allocations, and the strays that nobody gave back. */
  ghost predicate ReservedOk(reserved: map<nat, nat>, slots: map<nat, Slot>, strays: map<nat, nat>) {
    && RangesApart(reserved)
    && (forall p :: p in slots ==> p in reserved && reserved[p] == slots[p].size && p !in strays)
    && (forall p :: p in strays ==> p in reserved && reserved[p] == strays[p])
    && (forall p :: p in reserved ==> p in slots || p in strays)
  }

  ghost predicate SlotMapped(maps: map<nat, Segment>, p: nat, s: Slot) {
    |s.handles| == |s.sizes| &&
    forall k :: 0 <= k < |s.sizes| ==>
          Starts(p, s.sizes)[k] in maps && maps[Starts(p, s.sizes)[k]] == Segment(s.sizes[k], s.handles[k])
  }

  /** The mappings are exactly the chunks of the allocations that are awake. */
  ghost predicate MapsOk(maps: map<nat, Segment>, slots: map<nat, Slot>, awake: set<nat>)
    requires awake <= slots.Keys
  {
    && (forall p :: p in awake ==> SlotMapped(maps, p, slots[p]))
    && (forall a :: a in maps ==> exists p :: p in awake && a in StartSet(p, slots[p]))
  }

  /** The live handles are exactly theirs, and no two share one. */
  ghost predicate LiveOk(live: set<nat>, slots: map<nat, Slot>, awake: set<nat>)
    requires awake <= slots.Keys
  {
    && (forall p :: p in awake ==> Distinct(slots[p].handles) && HandleSet(slots[p]) <= live)
    && (forall h :: h in live ==> exists p :: p in awake && h in HandleSet(slots[p]))
    && (forall p, q :: p in awake && q in awake && p != q ==> HandleSet(slots[p]) !! HandleSet(slots[q]))
  }

  /** All recorded handles were issued, and those of an allocation that is asleep are dead. */
  ghost predicate DeadOk(live: set<nat>, next: nat, slots: map<nat, Slot>, awake: set<nat>) {
    && (forall p, h :: p in slots && h in slots[p].handles ==> h < next)
    && (forall p, h :: p in slots && p !in awake && h in slots[p].handles ==> h !in live)
  }

  ghost predicate WorldOk(w: World, slots: map<nat, Slot>, awake: set<nat>, strays: map<nat, nat>) {
    && awake <= slots.Keys && (forall p :: p in slots ==> SlotOk(slots[p]))
    && ReservedOk(w.reserved, slots, strays) && MapsOk(w.maps, slots, awake) && LiveOk(w.live, slots, awake)
    && DeadOk(w.live, w.next, slots, awake)
  }

  lemma NextGrows(w: World, slots: map<nat, Slot>, awake: set<nat>, strays: map<nat, nat>, next: nat)
    requires WorldOk(w, slots, awake, strays) && w.next <= next
    ensures WorldOk(w.(next := next), slots, awake, strays)
  {
    hide ReservedOk, MapsOk, LiveOk, SlotOk;
  }

  /** With no allocation left the driver holds nothing but the strays. */
  lemma NothingLeft(w: World, strays: map<nat, nat>)
    requires WorldOk(w, map[], {}, strays)
    ensures w.maps == map[] && w.live == {} && w.reserved == strays
  {
  }

  // ----- Mappings -----

  lemma InRange(p: nat, s: Slot, a: nat)
    requires SlotOk(s) && a in StartSet(p, s)
    ensures exists k :: 0 <= k < |s.sizes| && a == Starts(p, s.sizes)[k] && p <= a && a + s.sizes[k] <= p + s.size
  {
    StartsInLine(p, s.sizes);
    var k :| 0 <= k < |s.sizes| && Starts(p, s.sizes)[k] == a;
  }

  /** Every mapping lies inside the range of an allocation that is awake. */
  lemma MappingInside(w: World, slots: map<nat, Slot>, awake: set<nat>, strays: map<nat, nat>, a: nat) returns (p: nat)
    requires WorldOk(w, slots, awake, strays) && a in w.maps
    ensures p in awake && a in StartSet(p, slots[p])
    ensures w.maps[a].size > 0 && p <= a && a + w.maps[a].size <= p + slots[p].size
  {
    hide ReservedOk, LiveOk, StartSet;
    p :| p in awake && a in StartSet(p, slots[p]);
    InRange(p, slots[p], a);
  }

  /** The range of an allocation is free of the mappings of all others. */
  lemma OthersOutside(w: World, slots: map<nat, Slot>, awake: set<nat>, strays: map<nat, nat>, p: nat)
    requires WorldOk(w, slots, awake, strays) && p in slots
    ensures forall a :: a in w.maps && (p !in awake || a !in StartSet(p, slots[p])) ==>
              w.maps[a].size > 0 && (a + w.maps[a].size <= p || p + slots[p].size <= a)
  {
    hide LiveOk, StartSet, MapsOk;
    forall a | a in w.maps && (p !in awake || a !in StartSet(p, slots[p]))
      ensures w.maps[a].size > 0 && (a + w.maps[a].size <= p || p + slots[p].size <= a)
    {
      var q := MappingInside(w, slots, awake, strays, a);
      assert q != p && q in slots && q in w.reserved && p in w.reserved;
    }
  }

  /** What is left of the mappings without the chunks of p. */
  ghost function Others(w: World, p: nat, s: Slot): World {
    w.(maps := w.maps - StartSet(p, s), live := w.live - HandleSet(s))
  }

  /** An awake allocation, seen on top of all the others. */
  lemma OnTop(w: World, slots: map<nat, Slot>, awake: set<nat>, strays: map<nat, nat>, p: nat)
    requires WorldOk(w, slots, awake, strays) && p in awake
    ensures
      var s, o := slots[p], Others(w, p, slots[p]);
      && Clear(o.maps, p, s.size) && Chunks(w.maps, o.maps, Starts(p, s.sizes), s.sizes, s.handles, 0, |s.sizes|)
      && w.live == Live(o.live, s.handles, 0, |s.sizes|) && Owned(s.handles, |s.sizes|, o.live)
  {
    hide MapsOk, LiveOk, ReservedOk, StartSet, HandleSet, Clear, Chunks, Live, Owned;
    OthersOutside(w, slots, awake, strays, p);
    AwakeSlot(w, slots, awake, strays, p);
    ClearWithout(w.maps, p, slots[p]);
    ChunksOnTop(w.maps, p, slots[p]);
    LiveOnTop(w.live, slots[p].handles, HandleSet(slots[p]));
  }

  lemma AwakeSlot(w: World, slots: map<nat, Slot>, awake: set<nat>, strays: map<nat, nat>, p: nat)
    requires WorldOk(w, slots, awake, strays) && p in awake
    ensures SlotMapped(w.maps, p, slots[p]) && Distinct(slots[p].handles) && SlotOk(slots[p])
    ensures HandleSet(slots[p]) <= w.live && forall h :: h in HandleSet(slots[p]) <==> h in slots[p].handles
  {
    hide SlotMapped, SlotOk, Distinct, ReservedOk;
  }

  lemma ClearWithout(m: map<nat, Segment>, p: nat, s: Slot)
    requires forall a :: a in m && a !in StartSet(p, s) ==> m[a].size > 0 && (a + m[a].size <= p || p + s.size <= a)
    ensures Clear(m - StartSet(p, s), p, s.size)
  {
    hide StartSet;
  }

  lemma ChunksOnTop(m: map<nat, Segment>, p: nat, s: Slot)
    requires SlotMapped(m, p, s)
    ensures Chunks(m, m - StartSet(p, s), Starts(p, s.sizes), s.sizes, s.handles, 0, |s.sizes|)
  {
    hide Starts;
    assert Starts(p, s.sizes)[0..|s.sizes|] == Starts(p, s.sizes);
  }

  lemma LiveOnTop(live: set<nat>, hs: seq<nat>, own: set<nat>)
    requires Distinct(hs) && own <= live && forall h :: h in own <==> h in hs
    ensures live == Live(live - own, hs, 0, |hs|) && Owned(hs, |hs|, live - own)
  {
    assert hs[..|hs|] == hs;
    assert forall k :: 0 <= k < |hs| ==> hs[k] in own;
    hide Distinct;
    forall h | h in own ensures h in set k | 0 <= k < |hs| :: hs[k] {
      var k :| 0 <= k < |hs| && hs[k] == h;
    }
  }

  lemma FallsAsleep(w: World, slots: map<nat, Slot>, awake: set<nat>, strays: map<nat, nat>, p: nat)
    requires WorldOk(w, slots, awake, strays) && p in awake
    ensures WorldOk(Others(w, p, slots[p]), slots, awake - {p}, strays)
  {
    hide ReservedOk, SlotOk, LiveOk, MapsOk;
    MapsShrink(w, slots, awake, strays, p);
    LiveShrink(w.live, slots, awake, p);
  }

  lemma MapsShrink(w: World, slots: map<nat, Slot>, awake: set<nat>, strays: map<nat, nat>, p: nat)
    requires WorldOk(w, slots, awake, strays) && p in awake
    ensures MapsOk(w.maps - StartSet(p, slots[p]), slots, awake - {p})
  {
    hide LiveOk, ReservedOk, SlotMapped, StartSet;
    var m := w.maps - StartSet(p, slots[p]);
    forall q | q in awake - {p} ensures SlotMapped(m, q, slots[q]) {
      StartsApart(w, slots, strays, awake, p, q);
      StillMappedWithout(w.maps, StartSet(p, slots[p]), q, slots[q]);
    }
    forall a | a in m ensures exists q :: q in awake - {p} && a in StartSet(q, slots[q]) {
      var q :| q in awake && a in StartSet(q, slots[q]);
      assert q in awake - {p};
    }
  }

  lemma StillMappedWithout(m: map<nat, Segment>, gone: set<nat>, q: nat, s: Slot)
    requires SlotMapped(m, q, s) && gone !! StartSet(q, s)
    ensures SlotMapped(m - gone, q, s)
  {
    hide Starts;
    forall k | 0 <= k < |s.sizes| ensures Starts(q, s.sizes)[k] !in gone {
      assert Starts(q, s.sizes)[k] in StartSet(q, s);
    }
  }

  lemma StartsApart(w: World, slots: map<nat, Slot>, strays: map<nat, nat>, awake: set<nat>, p: nat, q: nat)
    requires WorldOk(w, slots, awake, strays) && p in slots && q in slots && p != q
    ensures StartSet(p, slots[p]) !! StartSet(q, slots[q])
  {
    hide MapsOk, LiveOk, StartSet;
    assert p in w.reserved && q in w.reserved;
    forall a | a in StartSet(p, slots[p]) ensures a !in StartSet(q, slots[q]) {
      InRange(p, slots[p], a);
      if a in StartSet(q, slots[q]) {
        InRange(q, slots[q], a);
      }
    }
  }

  lemma LiveShrink(live: set<nat>, slots: map<nat, Slot>, awake: set<nat>, p: nat)
    requires awake <= slots.Keys && LiveOk(live, slots, awake) && p in awake
    ensures LiveOk(live - HandleSet(slots[p]), slots, awake - {p})
  {
    hide Distinct;
    var rest := live - HandleSet(slots[p]);
    forall h | h in rest ensures exists q :: q in awake - {p} && h in HandleSet(slots[q]) {
      var q :| q in awake && h in HandleSet(slots[q]);
      assert q in awake - {p};
    }
  }

  /** No other allocation has one of these handles. */
  ghost predicate NotOthers(slots: map<nat, Slot>, p: nat, hs: seq<nat>) {
    forall q, h :: q in slots && q != p && h in slots[q].handles ==> h !in hs
  }

  /** An allocation that is asleep, or new in the table, wakes up with new handles. */
  lemma WakesUp(w: World, slots: map<nat, Slot>, awake: set<nat>, strays: map<nat, nat>, p: nat, hs: seq<nat>, v: World)
    requires WorldOk(w, slots, awake, strays) && p in slots && p !in awake && |hs| == |slots[p].sizes|
    requires Chunks(v.maps, w.maps, Starts(p, slots[p].sizes), slots[p].sizes, hs, 0, |hs|)
    requires v.live == Live(w.live, hs, 0, |hs|) && Owned(hs, |hs|, w.live) && v.reserved == w.reserved
    requires NotOthers(slots, p, hs) && w.next <= v.next && forall h :: h in hs ==> h < v.next
    ensures WorldOk(v, slots[p := slots[p].(handles := hs)], awake + {p}, strays)
  {
    hide ReservedOk, MapsOk, LiveOk, Chunks, Live, Owned, DeadOk, NotOthers;
    SameSizes(w.reserved, slots, strays, p, slots[p].(handles := hs));
    MapsGrow(w.maps, slots, awake, p, hs, v.maps);
    LiveGrow(w.live, slots, awake, p, hs);
    DeadGrow(w.live, w.next, slots, awake, p, hs, v.next);
  }

  lemma DeadGrow(live: set<nat>, next: nat, slots: map<nat, Slot>, awake: set<nat>, p: nat, hs: seq<nat>, next': nat)
    requires DeadOk(live, next, slots, awake) && p in slots && NotOthers(slots, p, hs)
    requires next <= next' && forall h :: h in hs ==> h < next'
    ensures DeadOk(Live(live, hs, 0, |hs|), next', slots[p := slots[p].(handles := hs)], awake + {p})
  {
    var more := slots[p := slots[p].(handles := hs)];
    forall h ensures h in Live(live, hs, 0, |hs|) <==> h in live || h in hs { }
    hide Live;
    forall q, h | q in more && q !in awake + {p} && h in more[q].handles ensures h !in Live(live, hs, 0, |hs|) {
      assert h in slots[q].handles;
    }
  }

  lemma NewNotOthers(w: World, slots: map<nat, Slot>, awake: set<nat>, strays: map<nat, nat>, p: nat, hs: seq<nat>)
    requires WorldOk(w, slots, awake, strays) && Fresh(hs, |hs|, w.next)
    ensures NotOthers(slots, p, hs) && forall h :: h in hs ==> w.next <= h < w.next + |hs|
  {
    hide ReservedOk, MapsOk, LiveOk, SlotOk;
  }

  lemma SameSizes(reserved: map<nat, nat>, slots: map<nat, Slot>, strays: map<nat, nat>, p: nat, s: Slot)
    requires ReservedOk(reserved, slots, strays) && p in slots && s.size == slots[p].size
    ensures ReservedOk(reserved, slots[p := s], strays)
  {
    hide RangesApart;
  }

  lemma MapsGrow(m: map<nat, Segment>, slots: map<nat, Slot>, awake: set<nat>, p: nat, hs: seq<nat>,
                 m': map<nat, Segment>)
    requires awake <= slots.Keys && MapsOk(m, slots, awake) && p in slots && p !in awake && |hs| == |slots[p].sizes|
    requires Chunks(m', m, Starts(p, slots[p].sizes), slots[p].sizes, hs, 0, |hs|)
    ensures MapsOk(m', slots[p := slots[p].(handles := hs)], awake + {p})
  {
    hide Starts, SlotMapped, StartSet;
    var more := slots[p := slots[p].(handles := hs)];
    ChunksMapped(m', m, p, more[p]);
    forall q | q in awake + {p} ensures SlotMapped(m', q, more[q]) {
      if q != p {
        StillMappedWith(m, m', q, slots[q]);
      }
    }
    forall a | a in m' ensures exists q :: q in awake + {p} && a in StartSet(q, more[q]) {
      if a in m {
        var q :| q in awake && a in StartSet(q, slots[q]);
        assert a in StartSet(q, more[q]);
      } else {
        assert a in StartSet(p, more[p]);
      }
    }
  }

  lemma ChunksMapped(m': map<nat, Segment>, m: map<nat, Segment>, p: nat, s: Slot)
    requires |s.handles| == |s.sizes| && Chunks(m', m, Starts(p, s.sizes), s.sizes, s.handles, 0, |s.handles|)
    ensures SlotMapped(m', p, s) && forall a :: a in m' && a !in m ==> a in StartSet(p, s)
  {
    hide Starts;
    assert Starts(p, s.sizes)[0..|s.handles|] == Starts(p, s.sizes);
  }

  lemma StillMappedWith(m: map<nat, Segment>, m': map<nat, Segment>, q: nat, s: Slot)
    requires SlotMapped(m, q, s) && forall a :: a in m ==> a in m' && m'[a] == m[a]
    ensures SlotMapped(m', q, s)
  {
    hide Starts;
  }

  lemma LiveGrow(live: set<nat>, slots: map<nat, Slot>, awake: set<nat>, p: nat, hs: seq<nat>)
    requires awake <= slots.Keys && LiveOk(live, slots, awake) && p in slots && p !in awake && Owned(hs, |hs|, live)
    ensures LiveOk(Live(live, hs, 0, |hs|), slots[p := slots[p].(handles := hs)], awake + {p})
  {
    var more := slots[p := slots[p].(handles := hs)];
    assert hs[..|hs|] == hs && Distinct(hs);
    assert HandleSet(more[p]) !! live;
    assert Live(live, hs, 0, |hs|) == live + HandleSet(more[p]);
    hide Owned, Distinct, Live, HandleSet;
    forall h | h in live + HandleSet(more[p]) ensures exists q :: q in awake + {p} && h in HandleSet(more[q]) {
      if h in live {
        var q :| q in awake && h in HandleSet(slots[q]);
        assert h in HandleSet(more[q]);
      } else {
        assert h in HandleSet(more[p]);
      }
    }
    forall q | q in awake + {p} ensures HandleSet(more[q]) <= live + HandleSet(more[p]) { }
    forall q, s | q in awake + {p} && s in awake + {p} && q != s ensures HandleSet(more[q]) !! HandleSet(more[s]) {
      if q == p {
        assert HandleSet(more[s]) <= live;
      } else if s == p {
        assert HandleSet(more[q]) <= live;
      }
    }
  }

  /** An allocation that is asleep may have its handles replaced by other dead ones. */
  lemma Rewritten(w: World, slots: map<nat, Slot>, awake: set<nat>, strays: map<nat, nat>, p: nat, hs: seq<nat>,
                  next: nat)
    requires WorldOk(w, slots, awake, strays) && p in slots && p !in awake
    requires Rewrites(slots[p].handles, hs, w.next, next) && forall h :: h in w.live ==> h < w.next
    ensures WorldOk(w.(next := next), slots[p := slots[p].(handles := hs)], awake, strays)
  {
    hide ReservedOk, MapsOk, LiveOk, DeadOk;
    var more := slots[p := slots[p].(handles := hs)];
    SameSizes(w.reserved, slots, strays, p, more[p]);
    MapsSame(w.maps, slots, more, awake);
    LiveSameSlots(w.live, slots, more, awake);
    DeadRewritten(w.live, w.next, slots, awake, p, hs, next);
  }

  lemma DeadRewritten(live: set<nat>, next: nat, slots: map<nat, Slot>, awake: set<nat>, p: nat, hs: seq<nat>,
                      next': nat)
    requires DeadOk(live, next, slots, awake) && p in slots && p !in awake
    requires Rewrites(slots[p].handles, hs, next, next') && forall h :: h in live ==> h < next
    ensures DeadOk(live, next', slots[p := slots[p].(handles := hs)], awake)
  {
    var more := slots[p := slots[p].(handles := hs)];
    forall h | h in hs ensures h < next' && h !in live {
      var k :| 0 <= k < |hs| && hs[k] == h;
      assert h == slots[p].handles[k] || next <= h < next';
      assert slots[p].handles[k] in slots[p].handles;
    }
    forall q, h | q in more && h in more[q].handles ensures h < next' {
      assert q != p ==> h in slots[q].handles;
    }
  }

  // ----- Reservations -----

  lemma RangeAdded(reserved: map<nat, nat>, p: nat, size: nat)
    requires RangesApart(reserved) && Apart(reserved, p, size)
    ensures RangesApart(reserved[p := size])
  {
  }

  lemma RangeRemoved(reserved: map<nat, nat>, p: nat)
    requires RangesApart(reserved)
    ensures RangesApart(reserved - {p})
  {
  }

  lemma RecordReserved(reserved: map<nat, nat>, slots: map<nat, Slot>, strays: map<nat, nat>, p: nat, s: Slot)
    requires ReservedOk(reserved, slots, strays) && Apart(reserved, p, s.size)
    ensures p !in slots && ReservedOk(reserved[p := s.size], slots[p := s], strays)
  {
    hide RangesApart;
    RangeAdded(reserved, p, s.size);
    assert p !in reserved;
  }

  lemma StrayReserved(reserved: map<nat, nat>, slots: map<nat, Slot>, strays: map<nat, nat>, p: nat, size: nat)
    requires ReservedOk(reserved, slots, strays) && Apart(reserved, p, size)
    ensures ReservedOk(reserved[p := size], slots, strays[p := size])
  {
    hide RangesApart;
    RangeAdded(reserved, p, size);
    assert p !in reserved;
  }

  lemma ForgetReserved(reserved: map<nat, nat>, slots: map<nat, Slot>, strays: map<nat, nat>, p: nat)
    requires ReservedOk(reserved, slots, strays) && p in slots
    ensures ReservedOk(reserved - {p}, slots - {p}, strays) &&
            ReservedOk(reserved, slots - {p}, strays[p := slots[p].size])
  {
    hide RangesApart;
    RangeRemoved(reserved, p);
  }

  /** A new range, recorded as an allocation that is not mapped yet. */
  lemma Recorded(w: World, slots: map<nat, Slot>, awake: set<nat>, strays: map<nat, nat>, p: nat, s: Slot)
    requires WorldOk(w, slots, awake, strays) && SlotOk(s) && Apart(w.reserved, p, s.size)
    requires forall h :: h in s.handles ==> h < w.next && h !in w.live
    ensures WorldOk(w.(reserved := w.reserved[p := s.size]), slots[p := s], awake, strays)
  {
    hide ReservedOk, SlotOk, MapsOk, LiveOk, Apart;
    RecordReserved(w.reserved, slots, strays, p, s);
    MapsSame(w.maps, slots, slots[p := s], awake);
    LiveSameSlots(w.live, slots, slots[p := s], awake);
  }

  lemma MapsSame(m: map<nat, Segment>, slots: map<nat, Slot>, other: map<nat, Slot>, awake: set<nat>)
    requires awake <= slots.Keys && awake <= other.Keys && forall q :: q in awake ==> other[q] == slots[q]
    requires MapsOk(m, slots, awake)
    ensures MapsOk(m, other, awake)
  {
    hide SlotMapped, StartSet;
    forall a | a in m ensures exists q :: q in awake && a in StartSet(q, other[q]) {
      var q :| q in awake && a in StartSet(q, slots[q]);
      assert a in StartSet(q, other[q]);
    }
  }

  lemma LiveSameSlots(live: set<nat>, slots: map<nat, Slot>, other: map<nat, Slot>, awake: set<nat>)
    requires awake <= slots.Keys && awake <= other.Keys && forall q :: q in awake ==> other[q] == slots[q]
    requires LiveOk(live, slots, awake)
    ensures LiveOk(live, other, awake)
  {
    hide HandleSet, Distinct;
    forall h | h in live ensures exists q :: q in awake && h in HandleSet(other[q]) {
      var q :| q in awake && h in HandleSet(slots[q]);
      assert h in HandleSet(other[q]);
    }
  }

  /** A new range that nobody records. */
  lemma Strayed(w: World, slots: map<nat, Slot>, awake: set<nat>, strays: map<nat, nat>, p: nat, size: nat)
    requires WorldOk(w, slots, awake, strays) && Apart(w.reserved, p, size)
    ensures WorldOk(w.(reserved := w.reserved[p := size]), slots, awake, strays[p := size])
  {
    hide ReservedOk, MapsOk, LiveOk, SlotOk, Apart;
    StrayReserved(w.reserved, slots, strays, p, size);
  }

  /** An allocation that is asleep is forgotten; its range goes back or is left as a stray. */
  lemma Forgotten(w: World, slots: map<nat, Slot>, awake: set<nat>, strays: map<nat, nat>, p: nat, freed: bool)
    requires WorldOk(w, slots, awake, strays) && p in slots && p !in awake
    ensures WorldOk(if freed then w.(reserved := w.reserved - {p}) else w, slots - {p}, awake,
                    if freed then strays else strays[p := slots[p].size])
  {
    hide ReservedOk, SlotOk, MapsOk, LiveOk;
    ForgetReserved(w.reserved, slots, strays, p);
    assert forall q :: q in awake ==> q in slots - {p} && (slots - {p})[q] == slots[q];
    MapsSame(w.maps, slots, slots - {p}, awake);
    LiveSameSlots(w.live, slots, slots - {p}, awake);
  }

  /** A stray is given back by somebody who still knows its address. */
  lemma StrayGone(w: World, slots: map<nat, Slot>, awake: set<nat>, strays: map<nat, nat>, p: nat)
    requires WorldOk(w, slots, awake, strays) && p !in slots
    ensures WorldOk(w.(reserved := w.reserved - {p}), slots, awake, strays - {p})
  {
    hide MapsOk, LiveOk, SlotOk, DeadOk, RangesApart;
    RangeRemoved(w.reserved, p);
  }

  /** Nothing that an allocation that is asleep records is there. */
  lemma AsleepIsGone(w: World, slots: map<nat, Slot>, awake: set<nat>, strays: map<nat, nat>, p: nat)
    requires WorldOk(w, slots, awake, strays) && p in slots && p !in awake
    ensures
      var s := slots[p];
      && |s.handles| == |s.sizes| && Gone(w.live, s.handles, |s.sizes|) == w.live
      && !AllHit(w.maps, Starts(p, s.sizes), s.sizes, |s.sizes|)
      && forall m :: Thinned(w.maps, m, Starts(p, s.sizes), s.sizes, |s.sizes|) ==> m == w.maps
  {
    hide MapsOk, LiveOk, ReservedOk, Starts, Clear, Thinned, AllHit;
    var s := slots[p];
    AsleepIsClear(w, slots, awake, strays, p);
    SomeChunk(s.sizes);
    NeverHit(w.maps, p, s.sizes);
    forall m | Thinned(w.maps, m, Starts(p, s.sizes), s.sizes, |s.sizes|) ensures m == w.maps {
      ThinnedClear(w.maps, m, p, s.sizes);
    }
  }

  lemma NeverHit(m: map<nat, Segment>, p: nat, sizes: seq<nat>)
    requires Clear(m, p, Total(sizes)) && sizes != [] && forall k :: 0 <= k < |sizes| ==> sizes[k] > 0
    ensures !AllHit(m, Starts(p, sizes), sizes, |sizes|)
  {
    hide Starts, Clear;
    ClearStarts(m, p, sizes);
    assert !Hit(m, Starts(p, sizes)[0], sizes[0]);
  }

  /** The range of an allocation that is awake is not free. */
  lemma AwakeNotClear(w: World, slots: map<nat, Slot>, awake: set<nat>, strays: map<nat, nat>, p: nat)
    requires WorldOk(w, slots, awake, strays) && p in awake
    ensures !Clear(w.maps, p, slots[p].size)
  {
    hide MapsOk, LiveOk, ReservedOk, Starts, DeadOk;
    var s := slots[p];
    AwakeSlot(w, slots, awake, strays, p);
    SomeChunk(s.sizes);
    assert Starts(p, s.sizes)[0] in w.maps;
    if Clear(w.maps, p, s.size) {
      ClearStarts(w.maps, p, s.sizes);
    }
  }

  /** The range of an allocation that is asleep is free. */
  lemma AsleepIsClear(w: World, slots: map<nat, Slot>, awake: set<nat>, strays: map<nat, nat>, p: nat)
    requires WorldOk(w, slots, awake, strays) && p in slots && p !in awake
    ensures Clear(w.maps, p, slots[p].size)
  {
    hide WorldOk;
    OthersOutside(w, slots, awake, strays, p);
  }
}
