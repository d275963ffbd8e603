/**
  The sleep-mode allocator (cumem_allocator.cpp, ROCm branch) against a driver whose every
  call may fail: reserve, create and map in chunks, unmap for sleep, map again for wake-up,
  free; with the clean-up on partial failure.
 */
module CumemAllocator {
  import opened Options
  import opened ChunkPlan

  /** A mapping of a physical handle at some address. */
  datatype Segment = Segment(size: nat, handle: nat)

  // ----- Chunks laid out one after the other -----

  /** The address of every chunk. */
  ghost function Starts(addr: nat, sizes: seq<nat>): (r: seq<nat>)
    ensures |r| == |sizes|
  {
    seq(|sizes|, k requires 0 <= k < |sizes| => addr + Off(sizes, k))
  }

  ghost predicate Distinct(s: seq<nat>) {
    forall j, k :: 0 <= j < k < |s| ==> s[j] != s[k]
  }

  /** Chunks of positive size, each ending where the next begins or before. */
  ghost predicate InLine(starts: seq<nat>, sizes: seq<nat>) {
    && |starts| == |sizes| && Distinct(starts)
    && (forall k :: 0 <= k < |sizes| ==> sizes[k] > 0)
    && forall j, k :: 0 <= j < k < |sizes| ==> starts[j] + sizes[j] <= starts[k]
  }

  lemma StartsInLine(addr: nat, sizes: seq<nat>)
    requires forall k :: 0 <= k < |sizes| ==> sizes[k] > 0
    ensures InLine(Starts(addr, sizes), sizes)
    ensures forall k :: 0 <= k < |sizes| ==>
              addr <= Starts(addr, sizes)[k] && Starts(addr, sizes)[k] + sizes[k] <= addr + Total(sizes)
  {
    forall j, k | 0 <= j < k <= |sizes| ensures Off(sizes, j) + sizes[j] <= Off(sizes, k) {
      OffGrows(sizes, j, k);
    }
  }

  /** m is m0 plus the chunks i..j, mapped to their handles. */
  ghost predicate Chunks(m: map<nat, Segment>, m0: map<nat, Segment>, starts: seq<nat>, sizes: seq<nat>,
                         handles: seq<nat>, i: nat, j: nat) {
    && i <= j <= |starts| == |handles| == |sizes|
    && (forall k :: i <= k < j ==> starts[k] in m && m[starts[k]] == Segment(sizes[k], handles[k]))
    && (forall a :: a in m0 ==> a in m && m[a] == m0[a])
    && (forall a :: a in m && a !in m0 ==> a in starts[i..j])
  }

  /** No mapping of m touches the range. */
  ghost predicate Clear(m: map<nat, Segment>, addr: nat, size: nat) {
    forall a :: a in m ==> m[a].size > 0 && (a + m[a].size <= addr || addr + size <= a)
  }

  /** The range touches no reservation. */
  ghost predicate Apart(reserved: map<nat, nat>, addr: nat, size: nat) {
    addr !in reserved && forall r :: r in reserved ==> r + reserved[r] <= addr || addr + size <= r
  }

  lemma NoChunks(m: map<nat, Segment>, m0: map<nat, Segment>, starts: seq<nat>, sizes: seq<nat>, handles: seq<nat>,
                 i: nat)
    requires i <= |starts| == |handles| == |sizes|
    ensures Chunks(m, m0, starts, sizes, handles, i, i) <==> m == m0
  {
    assert starts[i..i] == [];
  }

  lemma ClearStarts(m0: map<nat, Segment>, addr: nat, sizes: seq<nat>)
    requires Clear(m0, addr, Total(sizes)) && forall k :: 0 <= k < |sizes| ==> sizes[k] > 0
    ensures forall k :: 0 <= k < |sizes| ==>
              Clear(m0, Starts(addr, sizes)[k], sizes[k]) && Starts(addr, sizes)[k] !in m0
  {
    StartsInLine(addr, sizes);
  }

  lemma ChunkAdded(m: map<nat, Segment>, m0: map<nat, Segment>, starts: seq<nat>, sizes: seq<nat>, handles: seq<nat>,
                   j: nat)
    requires Distinct(starts) && Chunks(m, m0, starts, sizes, handles, 0, j) && j < |starts| && starts[j] !in m0
    ensures Chunks(m[starts[j] := Segment(sizes[j], handles[j])], m0, starts, sizes, handles, 0, j + 1)
  {
    assert starts[0..j + 1] == starts[0..j] + [starts[j]];
  }

  /** The next chunk's range is free. */
  lemma RoomForNext(m: map<nat, Segment>, m0: map<nat, Segment>, starts: seq<nat>, sizes: seq<nat>, handles: seq<nat>,
                    j: nat)
    requires InLine(starts, sizes) && Chunks(m, m0, starts, sizes, handles, 0, j) && j < |starts|
    requires Clear(m0, starts[j], sizes[j])
    ensures Clear(m, starts[j], sizes[j])
  {
    hide Distinct;
    forall a | a in m ensures m[a].size > 0 && (a + m[a].size <= starts[j] || starts[j] + sizes[j] <= a) {
      if a !in m0 {
        var k :| 0 <= k < j && starts[0..j][k] == a;
        assert m[starts[k]].size == sizes[k];
      }
    }
  }

  lemma LineFacts(starts: seq<nat>, sizes: seq<nat>)
    requires InLine(starts, sizes)
    ensures |starts| == |sizes| && Distinct(starts)
  {
    hide Distinct;
  }

  lemma StartAt(addr: nat, sizes: seq<nat>, k: nat)
    requires k < |sizes|
    ensures Starts(addr, sizes)[k] == addr + Off(sizes, k) && Off(sizes, k + 1) == Off(sizes, k) + sizes[k]
  {
  }

  /** Something of just this size is mapped at a. */
  ghost predicate Hit(m: map<nat, Segment>, a: nat, size: nat) { a in m && m[a].size == size }

  /** The first n chunks are all mapped with their sizes. */
  ghost predicate AllHit(m: map<nat, Segment>, starts: seq<nat>, sizes: seq<nat>, n: nat)
    requires n <= |starts| == |sizes|
  {
    forall k :: 0 <= k < n ==> Hit(m, starts[k], sizes[k])
  }

  ghost predicate HitBy(m: map<nat, Segment>, starts: seq<nat>, sizes: seq<nat>, n: nat, a: nat)
    requires n <= |starts| == |sizes|
  {
    exists k :: 0 <= k < n && starts[k] == a && Hit(m, a, sizes[k])
  }

  /** m without those of the first n chunks that are mapped with their sizes. */
  ghost function Without(m: map<nat, Segment>, starts: seq<nat>, sizes: seq<nat>, n: nat): map<nat, Segment>
    requires n <= |starts| == |sizes|
  {
    map a | a in m && !HitBy(m, starts, sizes, n, a) :: m[a]
  }

  lemma WithoutNone(m: map<nat, Segment>, starts: seq<nat>, sizes: seq<nat>)
    requires |starts| == |sizes|
    ensures Without(m, starts, sizes, 0) == m && AllHit(m, starts, sizes, 0)
  {
  }

  lemma WithoutNext(m: map<nat, Segment>, starts: seq<nat>, sizes: seq<nat>, j: nat)
    requires j < |starts| == |sizes| && Distinct(starts)
    ensures
      var r := Without(m, starts, sizes, j);
      && (Hit(r, starts[j], sizes[j]) <==> Hit(m, starts[j], sizes[j]))
      && Without(m, starts, sizes, j + 1) == if Hit(r, starts[j], sizes[j]) then r - {starts[j]} else r
  {
    var r := Without(m, starts, sizes, j);
    assert !HitBy(m, starts, sizes, j, starts[j]);
    forall a ensures HitBy(m, starts, sizes, j + 1, a) <==>
        HitBy(m, starts, sizes, j, a) || (a == starts[j] && Hit(m, a, sizes[j])) { }
  }

  /** m' is m without some of the first n chunks. */
  ghost predicate Thinned(m: map<nat, Segment>, m': map<nat, Segment>, starts: seq<nat>, sizes: seq<nat>, n: nat)
    requires n <= |starts| == |sizes|
  {
    && (forall a :: a in m' ==> a in m && m'[a] == m[a])
    && (forall a :: a in m && a !in m' ==> HitBy(m, starts, sizes, n, a))
  }

  lemma ThinnedNone(m: map<nat, Segment>, starts: seq<nat>, sizes: seq<nat>)
    requires |starts| == |sizes|
    ensures Thinned(m, m, starts, sizes, 0)
  {
  }

  lemma ThinnedNext(m: map<nat, Segment>, r: map<nat, Segment>, starts: seq<nat>, sizes: seq<nat>, j: nat, ok: bool)
    requires j < |starts| == |sizes| && Thinned(m, r, starts, sizes, j) && (ok ==> Hit(r, starts[j], sizes[j]))
    ensures Thinned(m, if ok then r - {starts[j]} else r, starts, sizes, j + 1)
  {
    var r' := if ok then r - {starts[j]} else r;
    forall a | a in m && a !in r' ensures HitBy(m, starts, sizes, j + 1, a) {
      if a in r {
        assert a == starts[j] && Hit(m, a, sizes[j]);
      }
    }
  }

  /** Nothing is taken from a range that holds nothing. */
  lemma ThinnedClear(m: map<nat, Segment>, m': map<nat, Segment>, addr: nat, sizes: seq<nat>)
    requires Thinned(m, m', Starts(addr, sizes), sizes, |sizes|) && Clear(m, addr, Total(sizes))
    requires forall k :: 0 <= k < |sizes| ==> sizes[k] > 0
    ensures m' == m && (sizes != [] ==> !AllHit(m, Starts(addr, sizes), sizes, |sizes|))
  {
    ClearStarts(m, addr, sizes);
    hide Starts, Clear;
  }

  /** Taking away chunks that were put on top of m0 leaves m0. */
  lemma ChunksGone(m: map<nat, Segment>, m0: map<nat, Segment>, starts: seq<nat>, sizes: seq<nat>, handles: seq<nat>,
                   n: nat)
    requires Chunks(m, m0, starts, sizes, handles, 0, n) && forall k :: 0 <= k < n ==> starts[k] !in m0
    ensures AllHit(m, starts, sizes, n) && Without(m, starts, sizes, n) == m0
  {
    forall a | a in m ensures a in m0 <==> !HitBy(m, starts, sizes, n, a) {
      if a !in m0 {
        var k :| 0 <= k < n && starts[0..n][k] == a;
        assert starts[k] == a && Hit(m, a, sizes[k]);
      }
    }
  }

  /** Every chunk's range is free. */
  ghost predicate ClearAll(m: map<nat, Segment>, starts: seq<nat>, sizes: seq<nat>, n: nat)
    requires n <= |starts| == |sizes|
  {
    forall k :: 0 <= k < n ==> Clear(m, starts[k], sizes[k])
  }

  lemma ClearPart(m: map<nat, Segment>, m0: map<nat, Segment>, starts: seq<nat>, sizes: seq<nat>, handles: seq<nat>,
                  j: nat)
    requires Chunks(m, m0, starts, sizes, handles, 0, j) && j < |starts| && sizes[j] > 0
    requires Clear(m, starts[j], sizes[j])
    ensures Clear(m0, starts[j], sizes[j]) && starts[j] !in m0
  {
  }

  /** The chunks are all free exactly when the whole range is. */
  lemma ClearAllIff(m: map<nat, Segment>, addr: nat, sizes: seq<nat>)
    requires sizes != [] && forall k :: 0 <= k < |sizes| ==> sizes[k] > 0
    ensures ClearAll(m, Starts(addr, sizes), sizes, |sizes|) <==> Clear(m, addr, Total(sizes))
  {
    if Clear(m, addr, Total(sizes)) {
      ClearStarts(m, addr, sizes);
    }
    if ClearAll(m, Starts(addr, sizes), sizes, |sizes|) {
      assert Clear(m, Starts(addr, sizes)[0], sizes[0]);
      forall a | a in m ensures m[a].size > 0 && (a + m[a].size <= addr || addr + Total(sizes) <= a) {
        LeftOrRight(m, addr, sizes, a, |sizes|);
      }
    }
  }

  lemma {:induction false} LeftOrRight(m: map<nat, Segment>, addr: nat, sizes: seq<nat>, a: nat, n: nat)
    requires n <= |sizes| && a in m && m[a].size > 0 && ClearAll(m, Starts(addr, sizes), sizes, |sizes|)
    ensures n > 0 ==> a + m[a].size <= addr || addr + Off(sizes, n) <= a
  {
    if n > 0 {
      LeftOrRight(m, addr, sizes, a, n - 1);
      assert Clear(m, Starts(addr, sizes)[n - 1], sizes[n - 1]);
      StartAt(addr, sizes, n - 1);
    }
  }

  // ----- Handles -----

  /** The live handles without the first n of hs. */
  ghost function Gone(live: set<nat>, hs: seq<nat>, n: nat): set<nat>
    requires n <= |hs|
  {
    live - set k | 0 <= k < n :: hs[k]
  }

  /** The first n are different and all live. */
  ghost predicate AllLive(live: set<nat>, hs: seq<nat>, n: nat)
    requires n <= |hs|
  {
    && (forall k :: 0 <= k < n ==> hs[k] in live)
    && (forall j, k :: 0 <= j < k < n ==> hs[j] != hs[k])
  }

  lemma GoneNext(live: set<nat>, hs: seq<nat>, j: nat)
    requires j < |hs|
    ensures Gone(live, hs, 0) == live && AllLive(live, hs, 0)
    ensures Gone(live, hs, j + 1) == Gone(live, hs, j) - {hs[j]}
    ensures AllLive(live, hs, j + 1) <==> AllLive(live, hs, j) && hs[j] in Gone(live, hs, j)
  {
  }

  lemma GoneNone(live: set<nat>, hs: seq<nat>)
    ensures Gone(live, hs, 0) == live && AllLive(live, hs, 0)
  {
  }

  lemma LiveGone(base: set<nat>, hs: seq<nat>, n: nat)
    requires Owned(hs, n, base)
    ensures Gone(Live(base, hs, 0, n), hs, n) == base && AllLive(Live(base, hs, 0, n), hs, n)
  {
    forall j, k | 0 <= j < k < n ensures hs[j] != hs[k] {
      assert hs[..n][j] == hs[j] && hs[..n][k] == hs[k];
    }
  }

  /** The handles created before number i are gone, the ones up to j are live. */
  ghost function Live(base: set<nat>, handles: seq<nat>, i: nat, j: nat): set<nat>
    requires i <= j <= |handles|
  {
    base + set k | i <= k < j :: handles[k]
  }

  lemma LiveAdded(base: set<nat>, handles: seq<nat>, j: nat)
    requires j < |handles|
    ensures Live(base, handles, 0, j) + {handles[j]} == Live(base, handles, 0, j + 1)
    ensures Live(base, handles, 0, 0) == base
  {
  }

  /** The first n handles are numbered from first on. */
  ghost predicate Fresh(handles: seq<nat>, n: nat, first: nat) {
    n <= |handles| && forall k :: 0 <= k < n ==> handles[k] == first + k
  }

  /** Every entry is the old one or one of the handles numbered lo..hi. */
  ghost predicate Rewrites(before: seq<nat>, after: seq<nat>, lo: nat, hi: nat) {
    && |before| == |after| && lo <= hi
    && forall k :: 0 <= k < |after| ==> after[k] == before[k] || lo <= after[k] < hi
  }

  /** The first n handles are different and none of them is in base. */
  ghost predicate Owned(handles: seq<nat>, n: nat, base: set<nat>) {
    n <= |handles| && Distinct(handles[..n]) && forall k :: 0 <= k < n ==> handles[k] !in base
  }

  lemma FreshIsOwned(handles: seq<nat>, n: nat, base: set<nat>, first: nat)
    requires Fresh(handles, n, first) && forall h :: h in base ==> h < first
    ensures Owned(handles, n, base)
  {
  }

  lemma LiveHas(base: set<nat>, handles: seq<nat>, k: nat, n: nat)
    requires k < n <= |handles|
    ensures handles[k] in Live(base, handles, 0, n)
  {
  }

  lemma LiveSame(base: set<nat>, hs: seq<nat>, gs: seq<nat>, n: nat)
    requires n <= |hs| == |gs| && forall k :: 0 <= k < n ==> hs[k] == gs[k]
    ensures Live(base, hs, 0, n) == Live(base, gs, 0, n)
  {
  }

  lemma LiveNone(base: set<nat>, handles: seq<nat>, i: nat)
    requires i <= |handles|
    ensures Live(base, handles, i, i) == base
  {
  }

  // ----- The driver -----

  /** An allocation as the Python side records it; handles are rewritten on wake-up. */
  datatype Allocation = Allocation(addr: nat, size: nat, sizes: seq<nat>, handles: array<nat>)

  /** Every driver call consumes one tick; faults says which calls fail, places what
      addresses a reservation is given.  Both are arbitrary. */
  class Driver {
    const faults: nat -> bool
    const places: nat -> nat
    const granularity: nat
    var clock: nat
    var live: set<nat>
    var next: nat
    var maps: map<nat, Segment>
    var reserved: map<nat, nat>
    var error: bool
    /** How many unmap, release and address-free calls have failed. */
    var lost: nat

    ghost predicate Valid()
      reads this
    {
      granularity > 0 && forall h :: h in live ==> h < next
    }

    ghost predicate Faultless() {
      forall t :: !faults(t)
    }

    constructor (faults: nat -> bool, places: nat -> nat, granularity: nat)
      requires granularity > 0
      ensures Valid() && this.faults == faults && this.places == places && this.granularity == granularity
      ensures live == {} && maps == map[] && reserved == map[] && !error && lost == 0
    {
      this.faults, this.places, this.granularity := faults, places, granularity;
      clock, live, next, maps, reserved, error, lost := 0, {}, 0, map[], map[], false, 0;
    }

    /** A call that is made under CUDA_CHECK and changes nothing else. */
    method Checked() returns (ok: bool)
      modifies this`clock, this`error
      ensures ok == !faults(old(clock)) && error == (old(error) || !ok) && clock == old(clock) + 1
    {
      ok := !faults(clock);
      clock := clock + 1;
      error := error || !ok;
    }

    /** cuMemCreate under CUDA_CHECK. */
    method Create(handles: array<nat>, i: nat)
      requires Valid() && i < handles.Length
      modifies this`clock, this`error, this`live, this`next, handles
      ensures Valid() && (error <==> old(error) || faults(old(clock)))
      ensures if faults(old(clock)) then next == old(next) && live == old(live) && handles[..] == old(handles[..])
              else next == old(next) + 1 && live == old(live) + {old(next)} &&
                   handles[..] == old(handles[..])[i := old(next)]
    {
      var ok := Checked();
      if ok {
        handles[i] := next;
        live, next := live + {next}, next + 1;
      }
    }

    /** cuMemMap under CUDA_CHECK: the handle must be live and the range free. */
    method Map(addr: nat, size: nat, handle: nat)
      modifies this`clock, this`error, this`maps
      ensures if !faults(old(clock)) && handle in live && Clear(old(maps), addr, size)
              then maps == old(maps)[addr := Segment(size, handle)] && error == old(error)
              else maps == old(maps) && error
    {
      var ok := Checked();
      if !ok {
        return;
      }
      if handle in live && RangeFree(addr, size) {
        maps := maps[addr := Segment(size, handle)];
      } else {
        error := true;
      }
    }

    predicate RangeFree(addr: nat, size: nat)
      reads this
      ensures RangeFree(addr, size) <==> Clear(maps, addr, size)
    {
      forall a :: a in maps ==> maps[a].size > 0 && (a + maps[a].size <= addr || addr + size <= a)
    }

    /** cuMemUnmap: exactly what was mapped there. */
    method Unmap(addr: nat, size: nat) returns (ok: bool)
      modifies this`clock, this`maps, this`lost
      ensures ok <==> !faults(old(clock)) && addr in old(maps) && old(maps)[addr].size == size
      ensures maps == if ok then old(maps) - {addr} else old(maps)
      ensures lost == old(lost) + if ok then 0 else 1
    {
      ok := !faults(clock) && addr in maps && maps[addr].size == size;
      clock := clock + 1;
      if ok {
        maps := maps - {addr};
      } else {
        lost := lost + 1;
      }
    }

    /** cuMemRelease. */
    method Release(handle: nat) returns (ok: bool)
      modifies this`clock, this`live, this`lost
      ensures ok <==> !faults(old(clock)) && handle in old(live)
      ensures live == if ok then old(live) - {handle} else old(live)
      ensures lost == old(lost) + if ok then 0 else 1
    {
      ok := !faults(clock) && handle in live;
      clock := clock + 1;
      if ok {
        live := live - {handle};
      } else {
        lost := lost + 1;
      }
    }

    /** cuMemAddressReserve under CUDA_CHECK: a range that touches no other. */
    method Reserve(size: nat) returns (addr: nat)
      requires !error
      modifies this`clock, this`error, this`reserved
      ensures error ==> reserved == old(reserved)
      ensures !error ==>
                size > 0 && addr !in old(reserved) && reserved == old(reserved)[addr := size] && Clear(maps, addr, size)
      ensures addr == places(old(clock))
      ensures !error <==> !faults(old(clock)) && size > 0 && Apart(old(reserved), addr, size) && Clear(maps, addr, size)
    {
      addr := places(clock);
      var ok := Checked();
      if ok && size > 0 && RangeFree(addr, size) && (forall r :: r in reserved ==>
            r + reserved[r] <= addr || addr + size <= r) && addr !in reserved {
        reserved := reserved[addr := size];
      } else {
        error := true;
      }
    }

    /** cuMemAddressFree under CUDA_CHECK: the size must be the reserved one and nothing
        may be mapped in the range. */
    method AddressFree(addr: nat, size: nat) returns (ok: bool)
      modifies this`clock, this`error, this`reserved, this`lost
      ensures ok <==>
                !faults(old(clock)) && addr in old(reserved) && old(reserved)[addr] == size && Clear(maps, addr, size)
      ensures reserved == if ok then old(reserved) - {addr} else old(reserved)
      ensures error == (old(error) || !ok) && lost == old(lost) + if ok then 0 else 1
    {
      ok := !faults(clock) && addr in reserved && reserved[addr] == size && RangeFree(addr, size);
      clock := clock + 1;
      if ok {
        reserved := reserved - {addr};
      } else {
        error, lost := true, lost + 1;
      }
    }

    // ----- Creating and mapping -----

    /** The first loop of create_and_map: one handle per chunk.  The check after each call
        looks at the global error, so an error that was already there stops the loop at
        the first chunk and leaves its new handle behind. */
    method CreateHandles(handles: array<nat>, sizes: seq<nat>) returns (done: bool)
      requires Valid() && handles.Length == |sizes|
      modifies this`clock, this`error, this`live, this`next, this`lost, handles
      ensures Valid() && lost >= old(lost) && next >= old(next)
      ensures Rewrites(old(handles[..]), handles[..], old(next), next)
      ensures old(error) && sizes != [] ==>
                !done && error && live == if next == old(next) then old(live) else old(live) + {old(next)}
      ensures old(error) && sizes != [] ==>
                handles[..] == if next == old(next) then old(handles[..]) else old(handles[..])[0 := old(next)]
      ensures old(error) && sizes != [] && Faultless() ==> next > old(next)
      ensures old(error) && sizes == [] ==> done && error && live == old(live)
      ensures !old(error) && done ==> !error && lost == old(lost) && Fresh(handles[..], |sizes|, old(next))
      ensures !old(error) && done ==> next == old(next) + |sizes|
      ensures !old(error) && done ==> live == Live(old(live), handles[..], 0, |sizes|)
      ensures !old(error) && !done ==> error && (lost == old(lost) ==> live == old(live))
      ensures Faultless() && !old(error) ==> done
    {
      hide Live, Gone, AllLive;
      ghost var base, first := live, next;
      LiveNone(base, handles[..], 0);
      for i := 0 to |sizes|
        invariant Valid() && lost == old(lost) && (error == old(error)) && (i > 0 ==> !error)
        invariant next == first + i && Fresh(handles[..], i, first)
        invariant Rewrites(old(handles[..]), handles[..], first, next)
        invariant live == Live(base, handles[..], 0, i) && (i == 0 ==> handles[..] == old(handles[..]))
      {
        ghost var before := handles[..];
        Create(handles, i);
        if error {
          LiveNone(base, before, 0);
          LiveSame(base, before, handles[..], i);
          FreshIsOwned(handles[..], i, base, first);
          LiveGone(base, handles[..], i);
          GoneNone(live, handles[..]);
          ReleaseFirst(handles, i);
          return false;
        }
        LiveSame(base, before, handles[..], i);
        LiveAdded(base, handles[..], i);
      }
      return true;
    }

    /** Releases the first n handles, ignoring failures. */
    method ReleaseFirst(handles: array<nat>, n: nat)
      requires Valid() && n <= handles.Length
      modifies this`clock, this`live, this`lost
      ensures Valid() && lost >= old(lost) && Gone(old(live), handles[..], n) <= live <= old(live)
      ensures lost == old(lost) || Faultless() ==> live == Gone(old(live), handles[..], n)
      ensures lost == old(lost) ==> AllLive(old(live), handles[..], n)
      ensures Faultless() && AllLive(old(live), handles[..], n) ==> lost == old(lost)
      ensures n == 0 ==> lost == old(lost)
    {
      hide Gone, AllLive;
      if n > 0 {
        GoneNext(live, handles[..], 0);
      } else {
        GoneNone(live, handles[..]);
      }
      for j := 0 to n
        invariant Valid() && lost >= old(lost) && Gone(old(live), handles[..], j) <= live <= old(live)
        invariant lost == old(lost) || Faultless() ==> live == Gone(old(live), handles[..], j)
        invariant lost == old(lost) ==> AllLive(old(live), handles[..], j)
        invariant Faultless() && AllLive(old(live), handles[..], j) ==> lost == old(lost)
        invariant j == 0 ==> lost == old(lost)
      {
        GoneNext(old(live), handles[..], j);
        var ok := Release(handles[j]);
      }
    }

    /** The second loop of create_and_map: maps chunk after chunk; when one fails, unmaps
        the earlier ones and releases every handle. */
    method MapChunks(addr: nat, handles: array<nat>, sizes: seq<nat>, ghost base: set<nat>) returns (done: bool)
      requires Valid() && handles.Length == |sizes| && (forall k :: 0 <= k < |sizes| ==> sizes[k] > 0)
      requires sizes != [] ==> !error
      requires Owned(handles[..], |sizes|, base) && live == Live(base, handles[..], 0, |sizes|)
      modifies this`clock, this`error, this`maps, this`live, this`lost
      ensures Valid() && lost >= old(lost)
      ensures done ==> error == old(error) && lost == old(lost) && live == old(live)
      ensures done ==> Chunks(maps, old(maps), Starts(addr, sizes), sizes, handles[..], 0, |sizes|)
      ensures done ==> ClearAll(old(maps), Starts(addr, sizes), sizes, |sizes|)
      ensures !done ==> error && (lost == old(lost) ==> maps == old(maps) && live == base)
      ensures Faultless() ==> lost == old(lost) && (done <==> ClearAll(old(maps), Starts(addr, sizes), sizes, |sizes|))
    {
      hide Live, Chunks, Clear, InLine, Starts, Owned, Distinct;
      ghost var m0, starts, hs := maps, Starts(addr, sizes), handles[..];
      StartsInLine(addr, sizes);
      LineFacts(starts, sizes);
      NoChunks(m0, m0, starts, sizes, hs, 0);
      var offset := 0;
      for i := 0 to |sizes|
        invariant Valid() && error == old(error) && lost == old(lost) && live == old(live) && handles[..] == hs
        invariant Chunks(maps, m0, starts, sizes, hs, 0, i) && offset == Off(sizes, i)
        invariant ClearAll(m0, starts, sizes, i) && forall k :: 0 <= k < i ==> starts[k] !in m0
      {
        StartAt(addr, sizes, i);
        LiveHas(base, hs, i, |sizes|);
        ghost var before := maps;
        Map(addr + offset, sizes[i], handles[i]);
        if error {
          if Clear(m0, starts[i], sizes[i]) {
            RoomForNext(maps, m0, starts, sizes, hs, i);
          }
          ChunksGone(maps, m0, starts, sizes, hs, i);
          LiveGone(base, hs, |sizes|);
          UnmapFirst(addr, sizes, i);
          ReleaseFirst(handles, |sizes|);
          return false;
        }
        ClearPart(before, m0, starts, sizes, hs, i);
        ChunkAdded(before, m0, starts, sizes, hs, i);
        offset := offset + sizes[i];
      }
      return true;
    }

    /** Unmaps the first n chunks, ignoring failures. */
    method UnmapFirst(addr: nat, sizes: seq<nat>, n: nat)
      requires n <= |sizes| && Distinct(Starts(addr, sizes))
      modifies this`clock, this`maps, this`lost
      ensures lost >= old(lost) && Thinned(old(maps), maps, Starts(addr, sizes), sizes, n)
      ensures lost == old(lost) || Faultless() ==> maps == Without(old(maps), Starts(addr, sizes), sizes, n)
      ensures lost == old(lost) ==> AllHit(old(maps), Starts(addr, sizes), sizes, n)
      ensures Faultless() && AllHit(old(maps), Starts(addr, sizes), sizes, n) ==> lost == old(lost)
    {
      hide Starts, Distinct, Without, Thinned;
      ghost var starts := Starts(addr, sizes);
      WithoutNone(maps, starts, sizes);
      ThinnedNone(maps, starts, sizes);
      var offset := 0;
      for j := 0 to n
        invariant lost >= old(lost) && offset == Off(sizes, j) && Thinned(old(maps), maps, starts, sizes, j)
        invariant lost == old(lost) || Faultless() ==> maps == Without(old(maps), starts, sizes, j)
        invariant lost == old(lost) ==> AllHit(old(maps), starts, sizes, j)
        invariant Faultless() && AllHit(old(maps), starts, sizes, j) ==> lost == old(lost)
      {
        StartAt(addr, sizes, j);
        WithoutNext(old(maps), starts, sizes, j);
        ghost var before := maps;
        var ok := Unmap(addr + offset, sizes[j]);
        ThinnedNext(old(maps), before, starts, sizes, j, ok);
        offset := offset + sizes[j];
      }
    }

    /** Maps a range.  If the context is fine and no error is pending, then either everything
        is mapped, or, unless a clean-up call itself failed, nothing is left behind; only a
        refused access leaves the mapped chunks with an error.  A range that is not free is
        refused in the same way, but the handles in the array are replaced by dead ones.  A
        pending error costs one handle. */
    method CreateAndMap(addr: nat, handles: array<nat>, sizes: seq<nat>) returns (ready: bool, mapped: bool)
      requires Valid() && handles.Length == |sizes| && (forall k :: 0 <= k < |sizes| ==> sizes[k] > 0)
      modifies this`clock, this`error, this`maps, this`live, this`next, this`lost, handles
      ensures Valid() && lost >= old(lost) && next >= old(next)
      ensures Rewrites(old(handles[..]), handles[..], old(next), next)
      ensures ready ==> !old(error)
      ensures !error ==> ready && mapped && lost == old(lost)
      ensures ready && mapped ==>
                && Chunks(maps, old(maps), Starts(addr, sizes), sizes, handles[..], 0, |sizes|)
                && ClearAll(old(maps), Starts(addr, sizes), sizes, |sizes|)
                && live == Live(old(live), handles[..], 0, |sizes|) && Fresh(handles[..], |sizes|, old(next))
      ensures ready && mapped ==> next == old(next) + |sizes|
      ensures ready && !mapped ==> error && (lost == old(lost) ==> maps == old(maps) && live == old(live))
      ensures !ready && sizes != [] ==>
                error && maps == old(maps) && live == if next == old(next) then old(live) else old(live) + {old(next)}
      ensures !ready && sizes != [] ==>
                handles[..] == if next == old(next) then old(handles[..]) else old(handles[..])[0 := old(next)]
      ensures Faultless() && !old(error) ==>
                && ready && lost == old(lost) && Fresh(handles[..], |sizes|, old(next)) && error == !mapped
                && (mapped <==> ClearAll(old(maps), Starts(addr, sizes), sizes, |sizes|))
      ensures Faultless() && old(error) && sizes != [] ==> next > old(next)
    {
      hide Live, Chunks, Clear, Starts, ClearAll;
      var context := Checked();
      ready, mapped := !error, false;
      var created := CreateHandles(handles, sizes);
      if !created {
        return;
      }
      LiveNone(live, handles[..], 0);
      LiveNone(old(live), handles[..], 0);
      ghost var base := if sizes == [] then live else old(live);
      FreshIsOwned(handles[..], |sizes|, base, if sizes == [] then next else old(next));
      mapped := MapChunks(addr, handles, sizes, base);
      if !mapped {
        return;
      }
      var granted := Checked();
    }

    // ----- Unmapping -----

    /** The chunks of an allocation are mapped, its handles live, on top of m0 and base. */
    ghost predicate Mapped(al: Allocation, m0: map<nat, Segment>, base: set<nat>)
      reads this, al.handles
    {
      && Shaped(al) && Clear(m0, al.addr, al.size)
      && Chunks(maps, m0, Starts(al.addr, al.sizes), al.sizes, al.handles[..], 0, |al.sizes|)
      && live == Live(base, al.handles[..], 0, |al.sizes|) && Owned(al.handles[..], |al.sizes|, base)
    }

    /** Everything that is recorded is there: each chunk mapped, each handle live. */
    ghost predicate Whole(al: Allocation)
      requires Shaped(al)
      reads this, al.handles
    {
      AllHit(maps, Starts(al.addr, al.sizes), al.sizes, |al.sizes|) && AllLive(live, al.handles[..], |al.sizes|)
    }

    /** What unmapping leaves of the mappings. */
    ghost function MapsLeft(al: Allocation): map<nat, Segment>
      reads this
    {
      Without(maps, Starts(al.addr, al.sizes), al.sizes, |al.sizes|)
    }

    /** What releasing leaves of the handles. */
    ghost function LiveLeft(al: Allocation): set<nat>
      requires Shaped(al)
      reads this, al.handles
    {
      Gone(live, al.handles[..], |al.sizes|)
    }

    /** A mapped allocation is whole, and without it the others are left. */
    lemma MappedIsWhole(al: Allocation, m0: map<nat, Segment>, base: set<nat>)
      requires Mapped(al, m0, base)
      ensures Shaped(al) && Whole(al) && MapsLeft(al) == m0 && LiveLeft(al) == base
    {
      hide Live, Chunks, Starts, Owned, Clear, Without, Gone, AllLive, AllHit;
      ClearStarts(m0, al.addr, al.sizes);
      ChunksGone(maps, m0, Starts(al.addr, al.sizes), al.sizes, al.handles[..], |al.sizes|);
      LiveGone(base, al.handles[..], |al.sizes|);
    }

    /** Taking away what is whole takes something away. */
    lemma WholeIsTaken(al: Allocation)
      requires Shaped(al) && al.sizes != [] && Whole(al)
      ensures MapsLeft(al) != maps
    {
      hide Starts;
      var starts := Starts(al.addr, al.sizes);
      assert Hit(maps, starts[0], al.sizes[0]);
      assert HitBy(maps, starts, al.sizes, |al.sizes|, starts[0]);
    }

    /** Unmaps every chunk and releases every handle, going on after failures.  Whatever of
        the record is there goes; the error is set unless everything was. */
    method UnmapAndRelease(al: Allocation)
      requires Valid() && Shaped(al)
      modifies this`clock, this`error, this`maps, this`live, this`lost
      ensures Valid() && lost >= old(lost)
      ensures Thinned(old(maps), maps, Starts(al.addr, al.sizes), al.sizes, |al.sizes|)
      ensures old(LiveLeft(al)) <= live <= old(live)
      ensures lost == old(lost) || Faultless() ==> maps == old(MapsLeft(al)) && live == old(LiveLeft(al))
      ensures lost == old(lost) ==> old(Whole(al))
      ensures lost > old(lost) || old(error) ==> error
      ensures Faultless() ==> (lost == old(lost) <==> old(Whole(al))) && error == (old(error) || !old(Whole(al)))
    {
      hide Starts, InLine, Distinct, Without, Gone, AllLive, AllHit, Thinned;
      var context := Checked();
      StartsInLine(al.addr, al.sizes);
      LineFacts(Starts(al.addr, al.sizes), al.sizes);
      var before := lost;
      UnmapFirst(al.addr, al.sizes, |al.sizes|);
      ReleaseFirst(al.handles, |al.sizes|);
      if lost != before {
        error := true;
      }
    }

    // ----- The life of an allocation -----

    /** The address the next allocation is offered, and whether it can be reserved. */
    ghost predicate GoodPlace(size: nat)
      reads this
    {
      Apart(reserved, places(clock + 2), size) && Clear(maps, places(clock + 2), size)
    }

    /** my_malloc: callback says whether the Python side accepted the record, and rec is the
        record if it did; the Python side keeps it even if the mapping fails afterwards.  A
        pending error refuses everything.  With a driver that makes no faults the allocation
        is granted exactly when no error is pending, the callback succeeds, the size is not
        zero and the address offered is free.  When it fails, nothing is left behind unless
        the context was lost on the way or a clean-up call failed; a failed callback leaves
        the reservation. */
    method Malloc(size: nat, env: Option<nat>, callback: bool)
      returns (ok: bool, rec: Option<Allocation>, ready: bool, ghost addr: nat)
      requires Valid() && Fits(size, granularity, BaseChunk(env))
      modifies this`clock, this`error, this`maps, this`live, this`next, this`reserved, this`lost
      ensures Valid() && lost >= old(lost) && next >= old(next)
      ensures old(error) ==> rec.None? && error && live == old(live) && maps == old(maps) && reserved == old(reserved)
      ensures Faultless() ==>
                (ok <==> !old(error) && callback && size > 0 && old(GoodPlace(AlignUp(size, granularity))))
      ensures Faultless() ==> ready && lost == old(lost) && (rec.Some? ==> ok)
      ensures Faultless() ==> error == (old(error) || size == 0 || !old(GoodPlace(AlignUp(size, granularity))))
      ensures !ok ==> error || !callback
      ensures ok ==> rec.Some? && !error && lost == old(lost)
      ensures rec.Some? ==> callback && fresh(rec.value.handles) && Shaped(rec.value) && rec.value.addr == addr
      ensures rec.Some? ==> rec.value.size == AlignUp(size, granularity) > 0
      ensures rec.Some? ==> Tiles(rec.value.sizes, rec.value.size, AlignUp(BaseChunk(env), granularity), granularity)
      ensures rec.Some? ==> Apart(old(reserved), addr, rec.value.size)
      ensures ok ==> Mapped(rec.value, old(maps), old(live))
      ensures ok ==> Fresh(rec.value.handles[..], |rec.value.sizes|, old(next))
      ensures ok ==> next >= old(next) + |rec.value.sizes| && reserved == old(reserved)[addr := rec.value.size]
      ensures !ok && ready && lost == old(lost) ==> live == old(live) && maps == old(maps)
      ensures !ok && ready && lost == old(lost) && (callback || error) ==> reserved == old(reserved)
      ensures !ok && !error ==>
                Apart(old(reserved), addr, AlignUp(size, granularity)) &&
                    reserved == old(reserved)[addr := AlignUp(size, granularity)]
    {
      hide Live, Chunks, Starts, Fits, BaseChunk, AlignUp, Multiple, Off, Clear, Apart, Fresh, ClearAll, Rewrites;
      ok, rec, ready, addr := false, None, true, 0;
      var context := Checked();
      var queried := Checked();
      if error {
        return;
      }
      SizeIsPositive(size, granularity, BaseChunk(env));
      var aligned, sizes := ChunkSizes(size, granularity, BaseChunk(env));
      var place := Reserve(aligned);
      addr := place;
      if error {
        return;
      }
      var handles := new nat[|sizes|];
      if !callback {
        return;
      }
      rec := Some(Allocation(place, aligned, sizes, handles));
      SomeChunk(sizes);
      ClearAllIff(maps, place, sizes);
      var mapped;
      ready, mapped := CreateAndMap(place, handles, sizes);
      if error {
        if mapped && ready {
          StillMapped(maps, old(maps), place, sizes, handles[..]);
        }
        var freed := AddressFree(place, aligned);
        return;
      }
      FreshIsOwned(handles[..], |sizes|, old(live), old(next));
      ok := true;
    }

    /** my_free, whatever state the record is in: what is there of it goes, and the address
        range is given back with the size the caller asked for, so it goes back only if that
        is the size that was reserved and nothing is left mapped in it.  An error stays
        pending unless everything was there and the range went back. */
    method Free(al: Allocation, size: nat) returns (unmapped: bool, freed: bool)
      requires Valid() && Shaped(al)
      modifies this`clock, this`error, this`maps, this`live, this`reserved, this`lost
      ensures Valid() && Thinned(old(maps), maps, Starts(al.addr, al.sizes), al.sizes, |al.sizes|)
      ensures old(LiveLeft(al)) <= live <= old(live)
      ensures unmapped || Faultless() ==> maps == old(MapsLeft(al)) && live == old(LiveLeft(al))
      ensures unmapped ==> old(Whole(al))
      ensures old(error) || !unmapped || !freed ==> error
      ensures reserved == if freed then old(reserved) - {al.addr} else old(reserved)
      ensures freed ==> al.addr in old(reserved) && old(reserved)[al.addr] == size
      ensures Faultless() ==> unmapped == old(Whole(al)) && error == (old(error) || !unmapped || !freed)
      ensures Faultless() ==>
                (freed <==> al.addr in old(reserved) && old(reserved)[al.addr] == size && Clear(maps, al.addr, size))
    {
      hide Starts, Thinned, Without, Gone, AllHit, AllLive, Clear;
      var before := lost;
      UnmapAndRelease(al);
      unmapped := lost == before;
      freed := AddressFree(al.addr, size);
    }

    /** python_unmap_and_release, whatever state the record is in: what is there of it goes;
        the error is reported and cleared. */
    method Sleep(al: Allocation) returns (raised: bool)
      requires Valid() && Shaped(al)
      modifies this`clock, this`error, this`maps, this`live, this`lost
      ensures Valid() && !error && lost >= old(lost)
      ensures Thinned(old(maps), maps, Starts(al.addr, al.sizes), al.sizes, |al.sizes|)
      ensures old(LiveLeft(al)) <= live <= old(live)
      ensures lost == old(lost) || Faultless() ==> maps == old(MapsLeft(al)) && live == old(LiveLeft(al))
      ensures lost == old(lost) ==> old(Whole(al))
      ensures !raised ==> lost == old(lost) && !old(error)
      ensures Faultless() ==> (lost == old(lost) <==> old(Whole(al))) && raised == (old(error) || !old(Whole(al)))
    {
      hide Starts, Thinned, Without, Gone, AllHit, AllLive;
      UnmapAndRelease(al);
      raised := error;
      error := false;
    }

    /** python_create_and_map, whatever state the record is in: new handles behind the same
        addresses.  mapped says that the range is mapped, which it is even when only the
        access was refused; intact, that the driver holds nothing new otherwise.  With a
        driver that makes no faults it maps exactly when no error is pending and the range
        is free; a range that is not leaves the driver as it was, but the record with dead
        handles in place of those that it had. */
    method Wake(al: Allocation) returns (raised: bool, mapped: bool, intact: bool)
      requires Valid() && Shaped(al)
      modifies this`clock, this`error, this`maps, this`live, this`next, this`lost, al.handles
      ensures Valid() && !error && lost >= old(lost) && next >= old(next)
      ensures Rewrites(old(al.handles[..]), al.handles[..], old(next), next)
      ensures mapped ==> intact && Fresh(al.handles[..], |al.sizes|, old(next)) && next >= old(next) + |al.sizes|
      ensures mapped && al.sizes != [] ==> Mapped(al, old(maps), old(live))
      ensures intact && !mapped ==> raised && maps == old(maps) && live == old(live)
      ensures !raised ==> mapped
      ensures Faultless() && al.sizes != [] ==>
                && (mapped <==> !old(error) && Clear(old(maps), al.addr, al.size))
                && raised == !mapped && intact == !old(error)
      ensures Faultless() && !old(error) ==> Fresh(al.handles[..], |al.sizes|, old(next))
      ensures old(error) && al.sizes != [] ==>
                && raised && maps == old(maps)
                && live == (if next == old(next) then old(live) else old(live) + {old(next)})
                && al.handles[..] == (if next == old(next) then old(al.handles[..])
                                      else old(al.handles[..])[0 := old(next)])
      ensures old(error) && al.sizes != [] && Faultless() ==> next > old(next)
    {
      hide Live, Chunks, Starts, Off, Clear, ClearAll, Rewrites;
      if al.sizes != [] {
        ClearAllIff(maps, al.addr, al.sizes);
      }
      var before := lost;
      var ready, done := CreateAndMap(al.addr, al.handles, al.sizes);
      raised, mapped := error, done && ready;
      intact := mapped || (ready && lost == before);
      if mapped {
        FreshIsOwned(al.handles[..], |al.sizes|, old(live), old(next));
      }
      error := false;
    }

    /** A whole life: allocate, sleep and wake any number of times, free.  If every step
        reports success, handles, mappings and reservations are as before.  A driver
        without faults grants every size but zero at a free address, and then refuses the
        last step exactly when the size is not a multiple of the granularity. */
    method Lifecycle(size: nat, env: Option<nat>, cycles: nat) returns (granted: bool, clean: bool)
      requires Valid() && !error && Fits(size, granularity, BaseChunk(env))
      modifies this`clock, this`error, this`maps, this`live, this`next, this`reserved, this`lost
      ensures Faultless() ==> (granted <==> size > 0 && old(GoodPlace(AlignUp(size, granularity))))
      ensures clean ==> granted && Multiple(size, granularity)
      ensures clean ==> live == old(live) && maps == old(maps) && reserved == old(reserved)
      ensures granted && Faultless() ==> (clean <==> Multiple(size, granularity))
    {
      hide Live, Chunks, Starts, Fits, BaseChunk, AlignUp, Multiple, Off, Clear, Tiles, Fresh, Owned, Without, Gone,
           AllHit, AllLive, Thinned, Rewrites;
      ghost var addr;
      var ok, rec, ready;
      ok, rec, ready, addr := Malloc(size, env, true);
      if !ok {
        return false, false;
      }
      var al := rec.value;
      SomeChunk(al.sizes);
      for c := 0 to cycles
        invariant Valid() && !error && Mapped(al, old(maps), old(live))
        invariant reserved == old(reserved)[al.addr := al.size] && al.addr !in old(reserved)
      {
        MappedIsWhole(al, old(maps), old(live));
        var raised := Sleep(al);
        if raised {
          return true, false;
        }
        var mapped, intact;
        raised, mapped, intact := Wake(al);
        if raised {
          return true, false;
        }
      }
      MappedIsWhole(al, old(maps), old(live));
      var unmapped, freed := Free(al, size);
      AlignedIff(size, granularity, al.size) by { FitsSize(size, granularity, BaseChunk(env)); }
      return true, !error;
    }
  }

  /** Positive chunks, one handle each, that add up to the size. */
  ghost predicate Shaped(al: Allocation) {
    && al.handles.Length == |al.sizes| && (forall k :: 0 <= k < |al.sizes| ==> al.sizes[k] > 0)
    && Total(al.sizes) == al.size
  }

  lemma SomeChunk(sizes: seq<nat>)
    requires Total(sizes) > 0
    ensures sizes != []
  {
  }

  lemma SizeIsPositive(size: nat, g: nat, base: nat)
    requires g > 0 && Fits(size, g, base)
    ensures AlignUp(size, g) > 0 <==> size > 0
  {
    AlignUpIs(size, g);
    if size == 0 {
      AlignedIff(0, g, AlignUp(0, g));
    }
  }

  /** Half of a granule: granted, and not given back at the end. */
  method UnalignedExample() returns (granted: bool, clean: bool)
    ensures granted && !clean
  {
    var d := new Driver(_ => false, _ => 0, 2);
    assert AlignUp(1, 2) == 2;
    assert BaseChunk(None) == DEFAULT_CHUNK;
    assert AlignUp(DEFAULT_CHUNK, 2) == DEFAULT_CHUNK;
    granted, clean := d.Lifecycle(1, None, 1);
  }

  /** Woken while awake: the call raises, and after the free the driver still holds the handles,
      which no record names any more. */
  method WokenTwice() returns (raised: bool, maps: map<nat, Segment>, live: set<nat>, reserved: map<nat, nat>)
    ensures raised && maps == map[] && reserved == map[] && live != {}
  {
    hide Tiles, Fits, BaseChunk, AlignUp, Starts, Chunks, Live, Without, Gone;
    var d := new Driver(_ => false, _ => 0, 2);
    assert AlignUp(2, 2) == 2 && Fits(2, 2, BaseChunk(None)) by { SmallFits(); }
    ghost var addr;
    var ok, rec, ready;
    ok, rec, ready, addr := d.Malloc(2, None, true);
    var al := rec.value;
    SomeChunk(al.sizes);
    d.MappedIsWhole(al, map[], {});
    d.WholeIsTaken(al);
    ghost var before := d.live;
    SomeLive(before, al.handles[..], |al.sizes|);
    var mapped, intact;
    if Clear(d.maps, al.addr, al.size) {
      ThinnedWithout(d.maps, Starts(al.addr, al.sizes), al.sizes);
      ThinnedClear(d.maps, d.MapsLeft(al), al.addr, al.sizes);
    }
    raised, mapped, intact := d.Wake(al);
    GoneDead(d.live, al.handles[..], |al.sizes|);
    var unmapped, freed := d.Free(al, 2);
    return raised, d.maps, d.live, d.reserved;
  }

  lemma SmallFits()
    ensures AlignUp(2, 2) == 2 && Fits(2, 2, BaseChunk(None))
  {
    assert BaseChunk(None) == DEFAULT_CHUNK;
    assert AlignUp(DEFAULT_CHUNK, 2) == DEFAULT_CHUNK;
  }

  lemma SomeLive(live: set<nat>, hs: seq<nat>, n: nat)
    requires 0 < n <= |hs| && AllLive(live, hs, n)
    ensures live != {}
  {
    assert hs[0] in live;
  }

  lemma GoneDead(live: set<nat>, hs: seq<nat>, n: nat)
    requires n <= |hs| && forall k :: 0 <= k < n ==> hs[k] !in live
    ensures Gone(live, hs, n) == live
  {
  }

  lemma ThinnedWithout(m: map<nat, Segment>, starts: seq<nat>, sizes: seq<nat>)
    requires |starts| == |sizes|
    ensures Thinned(m, Without(m, starts, sizes, |sizes|), starts, sizes, |sizes|)
  {
  }

  lemma StillMapped(m: map<nat, Segment>, m0: map<nat, Segment>, addr: nat, sizes: seq<nat>, handles: seq<nat>)
    requires Chunks(m, m0, Starts(addr, sizes), sizes, handles, 0, |sizes|) && Total(sizes) > 0
    requires forall k :: 0 <= k < |sizes| ==> sizes[k] > 0
    ensures !Clear(m, addr, Total(sizes))
  {
    StartsInLine(addr, sizes);
    assert |sizes| > 0;
    assert Starts(addr, sizes)[0] in m;
  }

  lemma FitsSize(size: nat, g: nat, base: nat)
    requires g > 0 && Fits(size, g, base)
    ensures size + g - 1 < WORD
  {
  }

  lemma AlignedIff(size: nat, g: nat, aligned: nat)
    requires g > 0 && size + g - 1 < WORD && aligned == AlignUp(size, g)
    ensures size == aligned <==> Multiple(size, g)
  {
    hide AlignUp, Multiple;
    AlignUpIs(size, g);
    if Multiple(size, g) {
      NextMultiple(size, aligned, g);
    }
  }

  lemma NextMultiple(a: nat, b: nat, g: nat)
    requires Multiple(a, g) && Multiple(b, g) && a <= b < a + g
    ensures a == b
  {
    SumOfMultiples(b, a, g);
    Below(b - a, g);
  }

  lemma Below(x: nat, g: nat)
    requires x < g && x % g == 0
    ensures x == 0
  {
  }
}
