/** Any interleaving of allocating, sleeping, waking and freeing over a table of allocations. */
module CumemSession {
  import opened Options
  import opened ChunkPlan
  import opened CumemAllocator
  import opened CumemWorld

  datatype Op =
    | Malloc(size: nat, env: Option<nat>, callback: bool)
    | Sleep(p: nat)
    | Wake(p: nat)
    | Free(p: nat, size: nat)
    | Trim(p: nat)

  /** Refused: a null pointer.  Raised: the Python call reports an error.  NotThere: no record
      under this pointer, so nothing is called.  A free reports nothing. */
  datatype Outcome = Done | Refused | Raised | NotThere

  // ----- The records -----

  ghost function Arrays(table: map<nat, Allocation>): set<array<nat>> {
    set p | p in table :: table[p].handles
  }

  ghost function Sizes(table: map<nat, Allocation>): (r: map<nat, nat>)
    ensures r.Keys == table.Keys
  {
    map p | p in table :: table[p].size
  }

  lemma SizesAdded(table: map<nat, Allocation>, al: Allocation)
    ensures Sizes(table[al.addr := al]) == Sizes(table)[al.addr := al.size]
  {
  }

  lemma SizesRemoved(table: map<nat, Allocation>, p: nat)
    ensures Sizes(table - {p}) == Sizes(table) - {p} && (p in table ==> Sizes(table)[p] == table[p].size)
  {
  }

  /** The allocations behind the records that are not stale. */
  ghost function SlotsOf(table: map<nat, Allocation>, stale: set<nat>): (r: map<nat, Slot>)
    reads Arrays(table)
    ensures r.Keys == table.Keys - stale
    ensures forall p :: p in r ==> r[p] == Slot(table[p].size, table[p].sizes, table[p].handles[..])
  {
    map p | p in table && p !in stale :: Slot(table[p].size, table[p].sizes, table[p].handles[..])
  }

  /** Each record sits under its address and has an array of its own. */
  ghost predicate RecordsOk(table: map<nat, Allocation>) {
    && (forall p :: p in table ==> table[p].addr == p && Shaped(table[p]) && table[p].size > 0)
    && (forall p, q :: p in table && q in table && p != q ==> table[p].handles != table[q].handles)
  }

  /** Cut into whole chunks of the configured size, rounded up, and a last one. */
  ghost predicate CutAs(al: Allocation, size: nat, env: Option<nat>, g: nat)
    requires g > 0
  {
    && al.size == AlignUp(size, g) && al.handles.Length == |al.sizes|
    && Tiles(al.sizes, al.size, AlignUp(BaseChunk(env), g), g)
  }

  lemma Shapes(al: Allocation)
    requires Shaped(al)
    ensures al.handles.Length == |al.sizes|
  {
  }

  lemma RecordAdded(table: map<nat, Allocation>, al: Allocation)
    requires RecordsOk(table) && Shaped(al) && al.size > 0 && al.handles !in Arrays(table)
    ensures RecordsOk(table[al.addr := al]) && Arrays(table[al.addr := al]) <= Arrays(table) + {al.handles}
  {
    hide Shaped;
    var more := table[al.addr := al];
    forall p | p in table ensures table[p].handles in Arrays(table) { }
    assert more[al.addr].handles == al.handles;
    forall p | p in table && p != al.addr ensures more[p] == table[p] { }
  }

  lemma RecordRemoved(table: map<nat, Allocation>, p: nat)
    requires RecordsOk(table)
    ensures RecordsOk(table - {p}) && Arrays(table - {p}) <= Arrays(table)
  {
    hide Shaped;
  }

  lemma RecordAt(table: map<nat, Allocation>, p: nat)
    requires RecordsOk(table) && p in table
    ensures table[p].addr == p && Shaped(table[p]) && table[p].size > 0 && table[p].handles in Arrays(table)
    ensures table[p].sizes != [] && table[p].handles.Length == |table[p].sizes|
  {
    SomeChunk(table[p].sizes);
  }

  lemma OnlyOne(table: map<nat, Allocation>, p: nat)
    requires RecordsOk(table) && p in table
    ensures forall q :: q in table && q != p ==> table[q].handles != table[p].handles
  {
    hide Shaped;
  }

  lemma InTable(w: World, slots: map<nat, Slot>, awake: set<nat>, strays: map<nat, nat>, p: nat)
    requires WorldOk(w, slots, awake, strays)
    ensures awake <= slots.Keys && (p in slots ==>
              p in w.reserved && w.reserved[p] == slots[p].size && slots[p].size > 0)
    ensures p in w.reserved && p !in slots ==> p in strays
  {
  }

  lemma NewPointer(w: World, slots: map<nat, Slot>, awake: set<nat>, strays: map<nat, nat>, p: nat, s: Slot)
    requires WorldOk(w, slots, awake, strays) && Apart(w.reserved, p, s.size)
    ensures p !in slots && p !in awake && p !in strays
  {
  }

  /** No handle recorded for an allocation was issued from now on. */
  lemma Issued(w: World, slots: map<nat, Slot>, awake: set<nat>, strays: map<nat, nat>, p: nat)
    requires WorldOk(w, slots, awake, strays) && p in slots
    ensures slots[p].handles != [] && slots[p].handles[0] < w.next && |slots[p].handles| == |slots[p].sizes|
  {
    hide ReservedOk, MapsOk, LiveOk;
    SomeChunk(slots[p].sizes);
    assert slots[p].handles[0] in slots[p].handles;
  }

  class Session {
    const d: Driver
    /** The records of the Python side, by pointer. */
    var table: map<nat, Allocation>
    /** The pointers whose ranges are mapped, and those that a failed allocation left behind. */
    var awake: set<nat>
    var stale: set<nat>
    /** Reservations that nobody can give back any more. */
    ghost var strays: map<nat, nat>

    ghost function Slots(): map<nat, Slot>
      reads this`table, this`stale, Arrays(table)
    {
      SlotsOf(table, stale)
    }

    ghost function Held(): World
      reads d
    {
      World(d.maps, d.live, d.reserved, d.next)
    }

    ghost function Now(): State
      reads this, d
    {
      State(Sizes(table), awake, stale, strays, d.error, iset n: nat | d.GoodPlace(n))
    }

    /** The driver holds exactly what the records say. */
    ghost predicate Valid()
      reads this, d, Arrays(table)
    {
      && d.Valid() && RecordsOk(table) && stale <= table.Keys && (d.Faultless() ==> stale == {})
      && WorldOk(Held(), Slots(), awake, strays)
    }

    constructor (d: Driver)
      requires d.Valid() && d.maps == map[] && d.live == {} && d.reserved == map[]
      ensures this.d == d && table == map[] && awake == {} && stale == {} && strays == map[] && Valid()
    {
      this.d, table, awake, stale, strays := d, map[], {}, {}, map[];
    }

    /** my_malloc with the callback that records the allocation.  The record stays when the
        mapping fails afterwards. */
    method Alloc(size: nat, env: Option<nat>, callback: bool) returns (o: Outcome, intact: bool, p: nat)
      requires Valid() && Fits(size, d.granularity, BaseChunk(env))
      modifies this, d
      ensures o in {Done, Refused} && (o == Done ==> intact) && (intact ==> Valid())
      ensures fresh(Arrays(table) - old(Arrays(table)))
      ensures o == Done ==> Added(old(Now()), Now(), p, AlignUp(size, d.granularity)) && callback && !d.error
      ensures o == Done ==> p !in old(table) || p in old(stale)
      ensures o == Done ==> p in table && CutAs(table[p], size, env, d.granularity)
      ensures o == Refused && intact ==> Rejected(old(Now()), Now(), callback, AlignUp(size, d.granularity))
      ensures d.Faultless() ==>
                && intact && (o == Refused && callback ==> SameRecords(old(Now()), Now()))
                && (o == Done <==>
                     !old(d.error) && callback && size > 0 && old(d.GoodPlace(AlignUp(size, d.granularity))))
                && d.error == (old(d.error) || size == 0 || !old(d.GoodPlace(AlignUp(size, d.granularity))))
    {
      hide WorldOk, Fits, AlignUp, BaseChunk, Tiles, Apart, Clear, Chunks, Live, Owned, Fresh, Starts, Off, SlotsOf,
           Shaped, RecordsOk, Sizes, d.GoodPlace;
      ghost var w, size', now := Held(), AlignUp(size, d.granularity), Now();
      ghost var addr;
      var ok, rec, ready;
      var before := d.lost;
      ok, rec, ready, addr := d.Malloc(size, env, callback);
      assert Slots() == old(Slots());
      p := if rec.Some? then rec.value.addr else 0;
      if ok {
        Shapes(rec.value);
        Enter(rec.value, w);
        SizesAdded(old(table), rec.value);
        return Done, true, p;
      }
      o, intact := Refused, ready && d.lost == before;
      if !intact {
        return;
      }
      NextGrows(w, Slots(), awake, strays, d.next);
      if rec.Some? {
        Leave(rec.value, w);
        SizesAdded(old(table), rec.value);
        assert LeftBehind(now, Now(), p, size');
      } else if !callback && !d.error {
        Strayed(w.(next := d.next), Slots(), awake, strays, addr, size');
        NewPointer(w, Slots(), awake, strays, addr, Slot(size', [], []));
        strays := strays[addr := size'];
        assert Slots() == old(Slots()) && Held() == w.(next := d.next, reserved := w.reserved[addr := size']);
      } else {
        assert Held() == w.(next := d.next);
      }
    }

    /** Records a new allocation, over a stale record if there is one. */
    method Enter(al: Allocation, ghost w: World)
      requires d.Valid() && RecordsOk(table) && stale <= table.Keys && (d.Faultless() ==> stale == {})
      requires WorldOk(w, Slots(), awake, strays) && al.handles !in Arrays(table)
      requires d.Mapped(al, w.maps, w.live) && al.size > 0 && Apart(w.reserved, al.addr, al.size)
      requires d.reserved == w.reserved[al.addr := al.size] && Fresh(al.handles[..], |al.sizes|, w.next)
      requires d.next >= w.next + |al.sizes| && forall h :: h in w.live ==> h < w.next
      modifies this`table, this`awake, this`stale
      ensures Valid() && (al.addr !in old(table) || al.addr in old(stale)) && table == old(table)[al.addr := al]
      ensures awake == old(awake) + {al.addr} && stale == old(stale) - {al.addr}
      ensures Arrays(table) <= old(Arrays(table)) + {al.handles}
    {
      hide WorldOk, Apart, Clear, Chunks, Live, Owned, Starts, Off, RecordsOk, Arrays, SlotsOf, NotOthers, Fresh;
      ghost var p, s, slots := al.addr, Slot(al.size, al.sizes, al.handles[..]), Slots();
      NewPointer(w, slots, awake, strays, p, s);
      NewNotOthers(w, slots, awake, strays, p, s.handles);
      NextGrows(w, slots, awake, strays, d.next);
      Recorded(w.(next := d.next), slots, awake, strays, p, s);
      ghost var more: map<nat, Slot> := slots[p := s];
      MoreNotOthers(slots, p, s);
      WakesUp(w.(next := d.next, reserved := w.reserved[p := s.size]), more, awake, strays, p, s.handles, Held());
      assert more[p := s.(handles := s.handles)] == more;
      RecordAdded(table, al);
      SlotsAdded(table, stale, al);
      table, awake, stale := table[al.addr := al], awake + {al.addr}, stale - {al.addr};
    }

    /** The record of an allocation that could not be mapped. */
    method Leave(al: Allocation, ghost w: World)
      requires d.Valid() && !d.Faultless() && RecordsOk(table) && stale <= table.Keys
      requires WorldOk(w.(next := d.next), Slots(), awake, strays) && Held() == w.(next := d.next)
      requires al.handles !in Arrays(table) && Shaped(al) && al.size > 0 && Apart(w.reserved, al.addr, al.size)
      modifies this`table, this`stale
      ensures Valid() && (al.addr !in old(table) || al.addr in old(stale)) && table == old(table)[al.addr := al]
      ensures stale == old(stale) + {al.addr}
      ensures Arrays(table) <= old(Arrays(table)) + {al.handles}
    {
      hide WorldOk, Apart, RecordsOk, Arrays, SlotsOf, Shaped;
      ghost var s := Slot(al.size, al.sizes, al.handles[..]);
      NewPointer(w.(next := d.next), Slots(), awake, strays, al.addr, s);
      RecordAdded(table, al);
      SlotsLeft(table, stale, al);
      table, stale := table[al.addr := al], stale + {al.addr};
    }

    /** python_unmap_and_release on a record, in whatever state it is.  What is not there
        cannot be unmapped or released, and that is reported. */
    method Unmap(p: nat) returns (raised: bool, intact: bool)
      requires Valid() && p in table
      modifies this`awake, d
      ensures (intact ==> Valid()) && !d.error
      ensures !raised && intact ==> p in old(awake) && !old(d.error) && awake == old(awake) - {p}
      ensures awake == old(awake) || awake == old(awake) - {p}
      ensures p !in old(awake) && p !in stale ==> intact && raised
      ensures d.Faultless() ==> intact && awake == old(awake) - {p} && raised == (old(d.error) || p !in old(awake))
    {
      hide WorldOk, Clear, Chunks, Live, Owned, Starts, Off, RecordsOk, SlotsOf, Gone, Thinned, Without, AllHit,
           AllLive, Shaped, d.Faultless;
      ghost var w, slots := Held(), Slots();
      RecordAt(table, p);
      InTable(w, slots, awake, strays, p);
      ghost var o := w;
      if p in awake {
        OnTop(w, slots, awake, strays, p);
        FallsAsleep(w, slots, awake, strays, p);
        o := Others(w, p, slots[p]);
        d.MappedIsWhole(table[p], o.maps, o.live);
      } else if p !in stale {
        AsleepIsGone(w, slots, awake, strays, p);
      }
      var maps, live, lost := d.maps, d.live, d.lost;
      raised := d.Sleep(table[p]);
      if d.lost == lost {
        intact, awake := p in awake, awake - {p};
        assert intact ==> Slots() == slots && Held() == o;
      } else {
        intact := d.maps == maps && d.live == live;
        assert intact ==> Slots() == slots && Held() == w;
      }
    }

    /** python_create_and_map on a record, in whatever state it is.  The handles of a record
        that is awake are overwritten, and with an error pending so is the first of any. */
    method Remap(p: nat) returns (raised: bool, intact: bool)
      requires Valid() && p in table
      modifies this`awake, d, table[p].handles
      ensures (intact ==> Valid()) && !d.error
      ensures !raised && intact ==> p !in old(awake) && p !in stale && !old(d.error) && awake == old(awake) + {p}
      ensures awake == old(awake) || awake == old(awake) + {p}
      ensures intact && p in stale ==> raised && awake == old(awake)
      ensures p in old(awake) ==> raised
      ensures d.Faultless() ==> (intact <==> p !in old(awake) && !old(d.error)) && raised == !intact
    {
      hide WorldOk, Clear, Chunks, Live, Owned, Starts, Off, RecordsOk, SlotsOf, Shaped, Rewrites, d.Faultless,
           NotOthers;
      ghost var w, slots, al := Held(), Slots(), table[p];
      RecordAt(table, p);
      OnlyOne(table, p);
      InTable(w, slots, awake, strays, p);
      if p in awake {
        AwakeNotClear(w, slots, awake, strays, p);
        Issued(w, slots, awake, strays, p);
      } else if p !in stale {
        AsleepIsClear(w, slots, awake, strays, p);
      }
      var maps, live, before := d.maps, d.live, table[p].handles[..];
      var mapped, clean;
      raised, mapped, clean := d.Wake(table[p]);
      ghost var hs := al.handles[..];
      if mapped {
        intact := p !in stale;
        if intact {
          NewNotOthers(w, slots, awake, strays, p, hs);
          WakesUp(w, slots, awake, strays, p, hs, Held());
          SlotsRewritten(table, stale, p, slots);
        }
        awake := awake + {p};
      } else {
        intact := d.maps == maps && d.live == live && (p !in awake || table[p].handles[..] == before);
        if intact {
          NextGrows(w, slots, awake, strays, d.next);
          SlotsRewritten(table, stale, p, slots);
          if p !in awake && p !in stale {
            Rewritten(w, slots, awake, strays, p, hs, d.next);
          } else if p !in stale {
            assert slots[p := slots[p].(handles := hs)] == slots;
          }
        }
      }
    }

    /** The reservations that nobody can give back once record p is gone. */
    ghost function StraysWithout(p: nat, freed: bool): map<nat, nat>
      requires p in table
      reads this
    {
      if p in stale then (if freed then strays - {p} else strays)
      else if freed then strays else strays[p := table[p].size]
    }

    /** The driver calls of my_free. */
    method GiveBack(p: nat, size: nat) returns (intact: bool, freed: bool)
      requires Valid() && p in table
      modifies d
      ensures d.Valid() && (intact ==> WorldOk(Held(), Slots() - {p}, awake - {p}, StraysWithout(p, freed)))
      ensures p !in stale && freed ==> size == table[p].size
      ensures old(d.error) || !freed || (intact && p !in awake) ==> d.error
      ensures d.Faultless() ==>
                intact && (freed <==> size == table[p].size) && d.error == (old(d.error) || p !in awake || !freed)
    {
      hide WorldOk, Clear, Chunks, Live, Owned, Starts, Off, RecordsOk, SlotsOf, Gone, Thinned, Without, AllHit,
           AllLive, Shaped, d.Faultless;
      ghost var w, slots, al := Held(), Slots(), table[p];
      RecordAt(table, p);
      InTable(w, slots, awake, strays, p);
      ghost var o := w;
      if p in awake {
        OnTop(w, slots, awake, strays, p);
        FallsAsleep(w, slots, awake, strays, p);
        o := Others(w, p, slots[p]);
        d.MappedIsWhole(al, o.maps, o.live);
      } else if p !in stale {
        AsleepIsGone(w, slots, awake, strays, p);
        AsleepIsClear(w, slots, awake, strays, p);
      }
      assert WorldOk(o, slots, awake - {p}, strays) by { assert p !in awake ==> awake - {p} == awake; }
      if d.Whole(al) {
        d.WholeIsTaken(al);
      }
      var maps, live := d.maps, d.live;
      var unmapped;
      unmapped, freed := d.Free(table[p], size);
      intact := if p in awake then unmapped else d.maps == maps && d.live == live;
      if p in stale {
        StrayGone(o, slots, awake - {p}, strays, p);
        assert slots - {p} == slots;
      } else {
        Forgotten(o, slots, awake - {p}, strays, p, freed);
      }
      assert intact ==> Held() == if freed then o.(reserved := o.reserved - {p}) else o;
    }

    /** my_free on a record, in whatever state it is.  The record goes in any case. */
    method Discard(p: nat, size: nat) returns (intact: bool)
      requires Valid() && p in table
      modifies this, d
      ensures table == old(table) - {p} && awake == old(awake) - {p} && stale == old(stale) - {p}
      ensures intact ==> Valid()
      ensures p !in old(stale) ==>
                || (strays == old(strays) && size == old(table)[p].size)
                || (strays == old(strays)[p := old(table)[p].size] && d.error)
      ensures p in old(stale) ==> strays == old(strays) || strays == old(strays) - {p}
      ensures old(d.error) || (intact && p !in old(awake)) ==> d.error
      ensures d.Faultless() ==>
                && intact && d.error == (old(d.error) || p !in old(awake) || size != old(table)[p].size)
                && strays == if size == old(table)[p].size then old(strays) else old(strays)[p := old(table)[p].size]
    {
      hide WorldOk, RecordsOk, SlotsOf, d.Faultless;
      RecordRemoved(table, p);
      var freed;
      intact, freed := GiveBack(p, size);
      SlotsRemoved(table, stale, p);
      table, awake, stale, strays := table - {p}, awake - {p}, stale - {p}, StraysWithout(p, freed);
    }

    /** What leaving a memory pool does with a record nobody uses: it is unmapped and
        forgotten, but the address is not given back. */
    method Drop(p: nat) returns (raised: bool, intact: bool)
      requires Valid() && p in table
      modifies this, d
      ensures table == old(table) - {p} && awake == old(awake) - {p} && stale == old(stale) - {p}
      ensures (intact ==> Valid()) && !d.error
      ensures strays == if p in old(stale) then old(strays) else old(strays)[p := old(table)[p].size]
      ensures !raised && intact ==> p in old(awake) && !old(d.error)
      ensures d.Faultless() ==> intact && raised == (old(d.error) || p !in old(awake))
    {
      hide WorldOk, RecordsOk, SlotsOf, d.Faultless, d.GoodPlace;
      raised, intact := Unmap(p);
      if intact && p !in awake {
        Forget(p);
        return;
      }
      intact := false;
      strays := if p in stale then strays else strays[p := table[p].size];
      table, awake, stale := table - {p}, awake - {p}, stale - {p};
    }

    /** A record that is not awake is removed; its reservation stays behind. */
    method Forget(p: nat)
      requires Valid() && p in table && p !in awake
      modifies this`table, this`stale, this`strays
      ensures Valid() && table == old(table) - {p} && stale == old(stale) - {p}
      ensures strays == if p in old(stale) then old(strays) else old(strays)[p := old(table)[p].size]
    {
      hide WorldOk, RecordsOk, SlotsOf, d.Faultless, d.GoodPlace;
      RecordRemoved(table, p);
      SlotsRemoved(table, stale, p);
      if p !in stale {
        Forgotten(Held(), Slots(), awake, strays, p, false);
      }
      strays := if p in stale then strays else strays[p := table[p].size];
      table, stale := table - {p}, stale - {p};
    }

    // ----- Runs -----

    /** One operation.  A driver without faults loses something exactly when a range is
        mapped again while it is awake or while an error is pending. */
    method Perform(op: Op) returns (o: Outcome, intact: bool)
      requires Valid() && Sized(op, d.granularity)
      modifies this, d, Arrays(table)
      ensures intact ==> Valid() && Follows(op, o, old(Now()), Now(), d.granularity, d.Faultless())
      ensures fresh(Arrays(table) - old(Arrays(table)))
      ensures d.Faultless() ==> (intact <==> !Loses(op, old(Now())))
    {
      hide WorldOk, RecordsOk, Fits, AlignUp, SlotsOf, Sizes, Added, Rejected, d.Faultless, d.GoodPlace;
      if !op.Malloc? {
        if op.p !in table {
          return NotThere, true;
        }
        RecordAt(table, op.p);
        RecordRemoved(table, op.p);
        SizesRemoved(table, op.p);
      }
      o := Done;
      var raised := false;
      match op {
      case Malloc(size, env, callback) =>
        var p;
        o, intact, p := Alloc(size, env, callback);
      case Sleep(p) =>
        raised, intact := Unmap(p);
      case Wake(p) =>
        raised, intact := Remap(p);
      case Free(p, size) =>
        intact := Discard(p, size);
      case Trim(p) =>
        raised, intact := Drop(p);
      }
      o := if raised then Raised else o;
    }

    /** Any interleaving, up to the first step that loses something: the driver holds exactly
        the chunks and handles of the allocations that are awake, and the reservations of all
        of them and of the strays.  With a driver that makes no faults no step before the
        last loses anything, and the run stops early exactly at one that does. */
    method Run(ops: seq<Op>) returns (outcomes: seq<Outcome>, broken: bool, ghost trace: seq<State>)
      requires Valid() && forall k :: 0 <= k < |ops| ==> Sized(ops[k], d.granularity)
      modifies this, d, Arrays(table)
      ensures |outcomes| <= |ops| && Traces(ops, outcomes, trace, d.granularity, d.Faultless())
      ensures trace[0] == old(Now())
      ensures !broken ==> |outcomes| == |ops| && Valid() && trace[|ops|] == Now()
      ensures !broken && table.Keys <= stale ==> d.maps == map[] && d.live == {} && d.reserved == strays
      ensures d.Faultless() ==> forall k :: 0 <= k < |outcomes| ==> !Loses(ops[k], trace[k])
      ensures d.Faultless() && broken ==> |outcomes| < |ops| && Loses(ops[|outcomes|], trace[|outcomes|])
    {
      hide Traces, Follows, Loses, WorldOk, RecordsOk, SlotsOf, Sized, Sizes, d.Faultless, d.GoodPlace;
      broken := false;
      outcomes := [];
      trace := [Now()];
      NoSteps(ops, trace[0], d.granularity, d.Faultless());
      for n := 0 to |ops|
        invariant Valid() && fresh(Arrays(table) - old(Arrays(table))) && |outcomes| == n && |trace| == n + 1 && !broken
        invariant Traces(ops, outcomes, trace, d.granularity, d.Faultless())
        invariant trace[0] == old(Now()) && trace[n] == Now()
        invariant d.Faultless() ==> forall k :: 0 <= k < n ==> !Loses(ops[k], trace[k])
      {
        var o, intact := Perform(ops[n]);
        if !intact {
          broken := true;
          return;
        }
        OneMore(ops, outcomes, trace, o, Now(), d.granularity, d.Faultless());
        outcomes, trace := outcomes + [o], trace + [Now()];
      }
      if table.Keys <= stale {
        Emptied();
      }
    }

    /** With no record but stale ones the driver holds nothing but the strays. */
    lemma Emptied()
      requires Valid() && table.Keys <= stale
      ensures d.maps == map[] && d.live == {} && d.reserved == strays
    {
      hide WorldOk, RecordsOk, d.Faultless;
      assert Slots() == map[];
      InTable(Held(), Slots(), awake, strays, 0);
      NothingLeft(Held(), strays) by { assert awake == {}; }
    }

    // ----- Sleeping and waking over the table -----

    /** CuMemAllocator.sleep over the records in the order of the dictionary; n says how many
        it reached.  It stops at the first that raises: with a driver that makes no faults,
        the first that is not awake, or the very first if an error is pending. */
    method SleepAll(order: seq<nat>) returns (raised: bool, n: nat, intact: bool)
      requires Valid() && Listing(order, table.Keys)
      modifies this`awake, d
      ensures n <= |order| && (intact ==> Valid()) && (!raised && intact ==> n == |order| && awake == {})
      ensures d.Faultless() ==> intact && awake == old(awake) - Listed(order, n)
      ensures d.Faultless() ==>
                (raised <==> order != [] && (old(d.error) || exists p :: p in order && p !in old(awake)))
      ensures d.Faultless() && raised ==> n > 0 && ((n == 1 && old(d.error)) || order[n - 1] !in old(awake))
      ensures d.Faultless() ==> forall k :: 0 <= k < n - 1 ==> order[k] in old(awake)
    {
      hide WorldOk, RecordsOk, SlotsOf, d.Faultless, d.GoodPlace;
      raised, n, intact := false, 0, true;
      ListedNone(order);
      while n < |order|
        invariant n <= |order| && intact && Valid() && !raised && (n > 0 ==> !d.error)
        invariant awake == old(awake) - Listed(order, n)
        invariant n == 0 ==> d.error == old(d.error)
        invariant n > 0 ==> !old(d.error)
        invariant forall k :: 0 <= k < n ==> order[k] in old(awake)
      {
        var p := order[n];
        ListedNext(order, n);
        raised, intact := Unmap(p);
        n := n + 1;
        if raised || !intact {
          assert p in order;
          return;
        }
      }
      AllListed(order, table.Keys);
      InTable(Held(), Slots(), awake, strays, 0);
    }

    /** CuMemAllocator.wake_up over the records that the tags select.  With a driver that makes
        no faults it raises exactly when an error is pending or one of them is awake, and then
        handles are lost. */
    method WakeUp(order: seq<nat>) returns (raised: bool, n: nat, intact: bool)
      requires Valid() && Listing(order, Listed(order, |order|)) && forall p :: p in order ==> p in table
      modifies this`awake, d, Arrays(table)
      ensures n <= |order| && (intact ==> Valid())
      ensures !raised && intact ==> n == |order| && awake == old(awake) + Listed(order, n)
      ensures d.Faultless() ==> intact == !raised
      ensures d.Faultless() ==>
                (raised <==> order != [] && (old(d.error) || exists p :: p in order && p in old(awake)))
      ensures d.Faultless() && raised ==> n > 0 && ((n == 1 && old(d.error)) || order[n - 1] in old(awake))
      ensures d.Faultless() ==> forall k :: 0 <= k < n - 1 ==> order[k] !in old(awake)
    {
      hide WorldOk, RecordsOk, SlotsOf, d.Faultless, d.GoodPlace;
      raised, n, intact := false, 0, true;
      ListedNone(order);
      while n < |order|
        invariant n <= |order| && intact && Valid() && !raised && (n > 0 ==> !d.error)
        invariant awake == old(awake) + Listed(order, n)
        invariant n == 0 ==> d.error == old(d.error)
        invariant n > 0 ==> !old(d.error)
        invariant forall k :: 0 <= k < n ==> order[k] !in old(awake)
      {
        var p := order[n];
        assert p in order;
        RecordAt(table, p);
        ListedNext(order, n);
        raised, intact := Remap(p);
        n := n + 1;
        if raised || !intact {
          return;
        }
      }
    }
  }

  ghost function Listed(order: seq<nat>, n: nat): set<nat>
    requires n <= |order|
  {
    set k | 0 <= k < n :: order[k]
  }

  /** The keys in some order. */
  ghost predicate Listing(order: seq<nat>, keys: set<nat>) {
    && (forall j, k :: 0 <= j < k < |order| ==> order[j] != order[k])
    && (forall p :: p in keys <==> p in order)
  }

  lemma ListedNone(order: seq<nat>)
    ensures Listed(order, 0) == {}
  {
  }

  lemma ListedNext(order: seq<nat>, n: nat)
    requires n < |order| && forall j, k :: 0 <= j < k < |order| ==> order[j] != order[k]
    ensures Listed(order, n + 1) == Listed(order, n) + {order[n]} && order[n] !in Listed(order, n)
  {
  }

  lemma AllListed(order: seq<nat>, keys: set<nat>)
    requires Listing(order, keys)
    ensures Listed(order, |order|) == keys
  {
    forall p | p in keys ensures p in Listed(order, |order|) {
      var k :| 0 <= k < |order| && order[k] == p;
    }
  }

  lemma SlotsAdded(table: map<nat, Allocation>, stale: set<nat>, al: Allocation)
    ensures SlotsOf(table[al.addr := al], stale - {al.addr})
         == SlotsOf(table, stale)[al.addr := Slot(al.size, al.sizes, al.handles[..])]
  {
  }

  lemma SlotsLeft(table: map<nat, Allocation>, stale: set<nat>, al: Allocation)
    requires al.addr !in table || al.addr in stale
    ensures SlotsOf(table[al.addr := al], stale + {al.addr}) == SlotsOf(table, stale)
  {
  }

  lemma SlotsRemoved(table: map<nat, Allocation>, stale: set<nat>, p: nat)
    ensures SlotsOf(table - {p}, stale - {p}) == SlotsOf(table, stale) - {p}
    ensures p !in table || p in stale ==> SlotsOf(table, stale) - {p} == SlotsOf(table, stale)
  {
  }

  /** Only the handles of p may have changed. */
  lemma SlotsRewritten(table: map<nat, Allocation>, stale: set<nat>, p: nat, slots: map<nat, Slot>)
    requires p in table && slots.Keys == table.Keys - stale
    requires forall q :: q in slots && q != p ==> slots[q] == Slot(table[q].size, table[q].sizes, table[q].handles[..])
    requires p in slots ==> slots[p].size == table[p].size && slots[p].sizes == table[p].sizes
    ensures SlotsOf(table, stale)
         == if p in slots then slots[p := slots[p].(handles := table[p].handles[..])] else slots
  {
  }

  lemma MoreNotOthers(slots: map<nat, Slot>, p: nat, s: Slot)
    requires NotOthers(slots, p, s.handles)
    ensures NotOthers(slots[p := s], p, s.handles)
  {
  }

  // ----- What the operations do to the records -----

  /** The sizes recorded by pointer; the pointers that are awake, and those of stale records;
      the reservations that nobody can give back; whether an error is pending; and the sizes
      that the next address offered has room for. */
  datatype State = State(recorded: map<nat, nat>, awake: set<nat>, stale: set<nat>, strays: map<nat, nat>,
                         error: bool, room: iset<nat>)

  ghost predicate SameRecords(s: State, t: State) {
    t.recorded == s.recorded && t.awake == s.awake && t.stale == s.stale && t.strays == s.strays
  }

  /** A new pointer of this size, awake. */
  ghost predicate Added(s: State, t: State, p: nat, size: nat) {
    && (p !in s.recorded || p in s.stale) && t.recorded == s.recorded[p := size] && t.awake == s.awake + {p}
    && t.stale == s.stale - {p} && t.strays == s.strays
  }

  /** The record of an allocation that failed after it was made. */
  ghost predicate LeftBehind(s: State, t: State, p: nat, size: nat) {
    && (p !in s.recorded || p in s.stale) && t.recorded == s.recorded[p := size] && t.awake == s.awake
    && t.stale == s.stale + {p} && t.strays == s.strays
  }

  /** A refused allocation: an error is pending or the callback failed, and all that may be
      left is a stale record, or the reservation if the callback failed. */
  ghost predicate Rejected(s: State, t: State, callback: bool, size: nat) {
    if callback then t.error && (SameRecords(s, t) || exists p: nat :: LeftBehind(s, t, p, size))
    else if t.error then SameRecords(s, t)
    else exists p: nat :: p !in s.strays && SameRecords(s.(strays := s.strays[p := size]), t)
  }

  /** Mapping a range again that is awake, or with an error pending. */
  ghost predicate Loses(op: Op, s: State) {
    op.Wake? && op.p in s.recorded && (op.p in s.awake || s.error)
  }

  /** No size computation passes 64 bits. */
  ghost predicate Sized(op: Op, g: nat) {
    g > 0 && (op.Malloc? ==> Fits(op.size, g, BaseChunk(op.env)))
  }

  /** The operation leaves an error pending: an allocation of nothing or without a place, a
      free of a record that is not awake or with the wrong size. */
  ghost predicate Troubles(op: Op, s: State, g: nat)
    requires g > 0
  {
    match op
    case Malloc(size, _, _) => size == 0 || AlignUp(size, g) !in s.room
    case Free(p, size) => p in s.recorded && (p !in s.awake || size != s.recorded[p])
    case _ => false
  }

  /** The operation reports a pending error and clears it. */
  ghost predicate Clears(op: Op, s: State) {
    (op.Sleep? || op.Wake? || op.Trim?) && op.p in s.recorded
  }

  /** What an operation does, with which outcome; with a driver that makes no faults all of it
      is settled by the state before, but for the address of a new allocation. */
  ghost predicate Follows(op: Op, o: Outcome, s: State, t: State, g: nat, faultless: bool)
    requires g > 0
  {
    && (faultless ==> t.stale == s.stale && (t.error <==> Troubles(op, s, g) || (s.error && !Clears(op, s))))
    && if op.Malloc? then MallocFollows(op.size, op.callback, o, s, t, g, faultless)
       else if op.p !in s.recorded then o == NotThere && t == s
       else if op.Sleep? then SleepFollows(op.p, o, s, t, faultless)
       else if op.Wake? then WakeFollows(op.p, o, s, t, faultless)
       else if op.Free? then FreeFollows(op.p, op.size, o, s, t, faultless)
       else TrimFollows(op.p, o, s, t, faultless)
  }

  ghost predicate MallocFollows(size: nat, callback: bool, o: Outcome, s: State, t: State, g: nat, faultless: bool)
    requires g > 0
  {
    && o in {Done, Refused}
    && (o == Done ==> callback && !t.error && exists p: nat :: Added(s, t, p, AlignUp(size, g)))
    && (o == Refused ==> Rejected(s, t, callback, AlignUp(size, g)))
    && (faultless && o == Refused && callback ==> SameRecords(s, t))
    && (faultless ==> (o == Done <==> !s.error && callback && size > 0 && AlignUp(size, g) in s.room))
  }

  ghost predicate SleepFollows(p: nat, o: Outcome, s: State, t: State, faultless: bool) {
    && o in {Done, Raised} && (t.awake == s.awake || t.awake == s.awake - {p})
    && SameRecords(s.(awake := t.awake), t) && !t.error
    && (o == Done ==> p in s.awake && !s.error && t.awake == s.awake - {p})
    && (faultless ==> t.awake == s.awake - {p} && (o == Done <==> p in s.awake && !s.error))
  }

  ghost predicate WakeFollows(p: nat, o: Outcome, s: State, t: State, faultless: bool) {
    && o in {Done, Raised} && (t.awake == s.awake || (p !in s.stale && t.awake == s.awake + {p}))
    && SameRecords(s.(awake := t.awake), t) && !t.error
    && (o == Done ==> p !in s.awake && p !in s.stale && !s.error && t.awake == s.awake + {p})
    && (faultless ==> o == Done)
  }

  ghost predicate FreeFollows(p: nat, size: nat, o: Outcome, s: State, t: State, faultless: bool)
    requires p in s.recorded
  {
    && o == Done && t.recorded == s.recorded - {p} && t.awake == s.awake - {p} && t.stale == s.stale - {p}
    && (p !in s.awake ==> t.error)
    && (if p in s.stale then t.strays == s.strays || t.strays == s.strays - {p}
        else || (t.strays == s.strays && size == s.recorded[p])
             || (t.strays == s.strays[p := s.recorded[p]] && t.error))
    && (faultless ==> t.strays == if size == s.recorded[p] then s.strays else s.strays[p := s.recorded[p]])
  }

  ghost predicate TrimFollows(p: nat, o: Outcome, s: State, t: State, faultless: bool)
    requires p in s.recorded
  {
    && o in {Done, Raised} && t.recorded == s.recorded - {p} && t.awake == s.awake - {p} && t.stale == s.stale - {p}
    && t.strays == (if p in s.stale then s.strays else s.strays[p := s.recorded[p]]) && !t.error
    && (o == Done ==> p in s.awake && !s.error)
    && (faultless ==> (o == Done <==> p in s.awake && !s.error))
  }

  // ----- Traces -----

  /** Each state follows from the one before by the operation and its outcome. */
  ghost predicate Traces(ops: seq<Op>, outcomes: seq<Outcome>, trace: seq<State>, g: nat, faultless: bool) {
    && g > 0 && |outcomes| <= |ops| && |trace| == |outcomes| + 1
    && forall k :: 0 <= k < |outcomes| ==> FollowsAt(ops, outcomes, trace, k, g, faultless)
  }

  ghost predicate FollowsAt(ops: seq<Op>, outcomes: seq<Outcome>, trace: seq<State>, k: nat, g: nat, faultless: bool)
    requires g > 0 && k < |outcomes| && k < |ops| && k + 1 < |trace|
  {
    Follows(ops[k], outcomes[k], trace[k], trace[k + 1], g, faultless)
  }

  lemma NoSteps(ops: seq<Op>, s: State, g: nat, faultless: bool)
    requires g > 0
    ensures Traces(ops, [], [s], g, faultless)
  {
  }

  lemma OneMore(ops: seq<Op>, outcomes: seq<Outcome>, trace: seq<State>, o: Outcome, t: State, g: nat,
                faultless: bool)
    requires Traces(ops, outcomes, trace, g, faultless) && |outcomes| < |ops|
    requires Follows(ops[|outcomes|], o, trace[|outcomes|], t, g, faultless)
    ensures Traces(ops, outcomes + [o], trace + [t], g, faultless)
  {
    hide Follows;
    forall k | 0 <= k < |outcomes| + 1 ensures FollowsAt(ops, outcomes + [o], trace + [t], k, g, faultless) {
      if k < |outcomes| {
        assert FollowsAt(ops, outcomes, trace, k, g, faultless);
      }
    }
  }

  /** Some step before k left an error that no step since has cleared. */
  ghost predicate LeftPending(ops: seq<Op>, trace: seq<State>, g: nat, k: nat)
    requires g > 0 && k <= |ops| && k < |trace|
  {
    exists j :: 0 <= j < k && Troubles(ops[j], trace[j], g) && Uncleared(ops, trace, j + 1, k)
  }

  ghost predicate Uncleared(ops: seq<Op>, trace: seq<State>, j: nat, k: nat)
    requires j <= k <= |ops| && k < |trace|
  {
    forall i :: j <= i < k ==> !Clears(ops[i], trace[i])
  }

  /** With a driver that makes no faults, an error is pending exactly when a step left it, or
      it was there at the start, and nothing has cleared it since. */
  lemma {:induction false} PendingIff(ops: seq<Op>, outcomes: seq<Outcome>, trace: seq<State>, g: nat, k: nat)
    requires Traces(ops, outcomes, trace, g, true) && k <= |outcomes|
    ensures trace[k].error <==>
              LeftPending(ops, trace, g, k) || (trace[0].error && Uncleared(ops, trace, 0, k))
  {
    hide Troubles, Clears, MallocFollows, SleepFollows, WakeFollows, FreeFollows, TrimFollows;
    if k > 0 {
      PendingIff(ops, outcomes, trace, g, k - 1);
      assert FollowsAt(ops, outcomes, trace, k - 1, g, true);
      var op, s := ops[k - 1], trace[k - 1];
      TroubleIsNew(op, s, g);
      if Clears(op, s) {
      } else {
        forall j | 0 <= j < k && Uncleared(ops, trace, j, k - 1) ensures Uncleared(ops, trace, j, k) { }
      }
    }
  }

  lemma TroubleIsNew(op: Op, s: State, g: nat)
    requires g > 0
    ensures !(Troubles(op, s, g) && Clears(op, s))
  {
  }
}
