/** How an allocation is cut into chunks (cumem_allocator.cpp, ROCm branch), in 64-bit arithmetic. */
module ChunkPlan {
  import opened Options

  const WORD: nat := 0x1_0000_0000_0000_0000
  const MB: nat := 0x10_0000
  const DEFAULT_CHUNK: nat := 256 * MB

  /** Unsigned 64-bit results wrap around. */
  function Wrap(x: int): (r: nat) ensures r < WORD && (0 <= x < WORD ==> r == x) { x % WORD }

  /** The configured chunk size in bytes; env is the number parsed from the environment, if any. */
  function BaseChunk(env: Option<nat>): (r: nat)
    ensures 0 < r < WORD && r % MB == 0
  {
    match env
    case None => DEFAULT_CHUNK
    case Some(mb) => if mb == 0 || mb > (WORD - 1) / MB then DEFAULT_CHUNK else mb * MB
  }

  /** The first n sizes added up. */
  ghost function Off(sizes: seq<nat>, n: nat): nat
    requires n <= |sizes|
  {
    if n == 0 then 0 else Off(sizes, n - 1) + sizes[n - 1]
  }

  ghost function Total(sizes: seq<nat>): nat { Off(sizes, |sizes|) }

  /** Each chunk starts where the one before it ends, or later. */
  lemma {:induction false} OffGrows(sizes: seq<nat>, j: nat, k: nat)
    requires j < k <= |sizes|
    ensures Off(sizes, j) + sizes[j] <= Off(sizes, k)
  {
    if j < k - 1 {
      OffGrows(sizes, j, k - 1);
    }
  }

  lemma {:induction false} OffPrefix(sizes: seq<nat>, more: seq<nat>, n: nat)
    requires n <= |sizes|
    ensures Off(sizes + more, n) == Off(sizes, n)
  {
    if n > 0 {
      OffPrefix(sizes, more, n - 1);
    }
  }

  /** Rounding up to a multiple: ((x + g - 1) / g) * g, each step wrapped. */
  function AlignUp(x: nat, g: nat): nat requires g > 0 { Wrap(Wrap(x + g - 1) / g * g) }

  lemma AlignUpIs(x: nat, g: nat)
    requires g > 0 && x + g - 1 < WORD
    ensures Multiple(AlignUp(x, g), g) && x <= AlignUp(x, g) < x + g
  {
    var q := (x + g - 1) / g;
    assert x + g - 1 == q * g + (x + g - 1) % g;
    MultipleOf(q, g);
  }

  lemma MultipleOf(q: nat, g: nat)
    requires g > 0
    ensures (q * g) % g == 0 && (q * g) / g == q
  {
    QuotientIs(q * g, g, q, 0);
  }

  lemma Grows(a: nat, b: nat, g: nat)
    ensures a <= b ==> a * g <= b * g
    ensures (a + 1) * g == a * g + g
  {
    if a < b {
      assert b * g == a * g + (b - a) * g;
    }
  }

  lemma QuotientIs(x: nat, g: nat, q: nat, r: nat)
    requires g > 0 && x == q * g + r && r < g
    ensures x / g == q && x % g == r
  {
    var d := x / g;
    assert x == d * g + x % g;
    Grows(d + 1, q, g);
    Grows(q + 1, d, g);
    Grows(d, q, g);
    Grows(q, d, g);
  }

  lemma SumOfMultiples(a: nat, b: nat, g: nat)
    requires g > 0 && a % g == 0 && b % g == 0
    ensures (a + b) % g == 0 && (a >= b ==> (a - b) % g == 0)
  {
    var p, q := a / g, b / g;
    assert a == p * g && b == q * g;
    assert a + b == (p + q) * g;
    MultipleOf(p + q, g);
    if a >= b {
      Grows(p + 1, q, g);
      Grows(p, q, g);
      assert a - b == (p - q) * g;
      MultipleOf(p - q, g);
    }
  }

  predicate Multiple(x: nat, g: nat) { g > 0 && x % g == 0 }

  function Start(i: nat, chunk: nat): nat { i * chunk }

  /** How many chunks: (aligned + chunk - 1) / chunk, wrapped. */
  function Count(aligned: nat, chunk: nat): nat
    requires chunk > 0 && aligned > 0
  {
    Wrap(aligned + chunk - 1) / chunk
  }

  /** The size of the chunk that begins at start. */
  function ChunkFrom(aligned: nat, chunk: nat, start: nat): nat {
    var rest := Wrap(aligned - Wrap(start));
    if rest < chunk then rest else chunk
  }

  /** Whole chunks up to the last one, which is at most a chunk; all positive multiples of the
      granularity that add up to the aligned size. */
  ghost predicate Tiles(sizes: seq<nat>, aligned: nat, chunk: nat, g: nat) {
    && Total(sizes) == aligned
    && (forall k :: 0 <= k < |sizes| ==> 0 < sizes[k] <= chunk && Multiple(sizes[k], g))
    && (forall k :: 0 <= k < |sizes| - 1 ==> sizes[k] == chunk)
  }

  /** There are as few chunks as the chunk size allows. */
  lemma TilesCount(sizes: seq<nat>, aligned: nat, chunk: nat, g: nat)
    requires Tiles(sizes, aligned, chunk, g) && aligned > 0
    ensures chunk > 0 && |sizes| == (aligned + chunk - 1) / chunk
  {
    hide Multiple;
    assert sizes != [];
    var n := |sizes| - 1;
    WholeChunks(sizes, chunk, n);
    Grows(n, n + 1, chunk);
    QuotientIs(aligned + chunk - 1, chunk, n + 1, sizes[n] - 1);
  }

  lemma {:induction false} WholeChunks(sizes: seq<nat>, chunk: nat, n: nat)
    requires n <= |sizes| && forall k :: 0 <= k < n ==> sizes[k] == chunk
    ensures Off(sizes, n) == n * chunk
  {
    if n > 0 {
      WholeChunks(sizes, chunk, n - 1);
      Grows(n - 1, n, chunk);
    }
  }

  /** The environment's number is used as it is in megabytes, unless it is zero or the bytes
      pass 64 bits. */
  lemma BaseChunkIs(mb: nat)
    ensures BaseChunk(None) == 256 * 0x10_0000
    ensures mb == 0 || mb * 0x10_0000 >= WORD ==> BaseChunk(Some(mb)) == BaseChunk(None)
    ensures mb > 0 && mb * 0x10_0000 < WORD ==> BaseChunk(Some(mb)) == mb * 0x10_0000
  {
  }

  /** Half a gigabyte at a granularity of two megabytes: two chunks, or with 100 in the
      environment six, the last one smaller. */
  lemma ChunkExample(two: seq<nat>, six: seq<nat>)
    requires Tiles(two, 512 * MB, AlignUp(BaseChunk(None), 2 * MB), 2 * MB)
    requires Tiles(six, 512 * MB, AlignUp(BaseChunk(Some(100)), 2 * MB), 2 * MB)
    ensures two == [256 * MB, 256 * MB]
    ensures six == [100 * MB, 100 * MB, 100 * MB, 100 * MB, 100 * MB, 12 * MB]
  {
    hide Multiple;
    assert AlignUp(BaseChunk(None), 2 * MB) == 256 * MB && AlignUp(BaseChunk(Some(100)), 2 * MB) == 100 * MB;
    TilesCount(two, 512 * MB, 256 * MB, 2 * MB);
    TilesCount(six, 512 * MB, 100 * MB, 2 * MB);
    WholeChunks(two, 256 * MB, 1);
    WholeChunks(six, 100 * MB, 5);
  }

  lemma Extend(sizes: seq<nat>, x: nat)
    ensures Total(sizes + [x]) == Total(sizes) + x && Total([]) == 0
  {
    OffPrefix(sizes, [x], |sizes|);
  }

  /** No sum on the way to the chunk sizes passes 64 bits. */
  ghost predicate Fits(size: nat, g: nat, base: nat)
    requires g > 0
  {
    size + g - 1 < WORD && base + g - 1 < WORD && AlignUp(size, g) + AlignUp(base, g) - 1 < WORD
  }

  /** The chunk sizes of an allocation.  Unless a sum passes 64 bits they tile the aligned
      size, and the aligned size is the next multiple of the granularity. */
  method ChunkSizes(size: nat, granularity: nat, base: nat) returns (aligned: nat, sizes: seq<nat>)
    requires granularity > 0 && base > 0
    ensures aligned == AlignUp(size, granularity)
    ensures Fits(size, granularity, base) ==>
              && size <= aligned < size + granularity && Multiple(aligned, granularity)
              && Tiles(sizes, aligned, AlignUp(base, granularity), granularity)
  {
    hide AlignUp, Wrap, Off, Multiple, Start, Count, ChunkFrom;
    aligned := AlignUp(size, granularity);
    var chunk := AlignUp(base, granularity);
    ghost var fits := Fits(size, granularity, base);
    sizes := [];
    Extend(sizes, 0);
    if fits {
      AlignUpIs(size, granularity);
      AlignUpIs(base, granularity);
    }
    if chunk == 0 || aligned == 0 {
      return;
    }
    var count := Count(aligned, chunk);
    if fits {
      CountIs(aligned, chunk);
    }
    for i := 0 to count
      invariant |sizes| == i
      invariant fits ==> Total(sizes) == if i < count then Start(i, chunk) else aligned
      invariant fits ==> forall k :: 0 <= k < |sizes| ==> 0 < sizes[k] <= chunk && Multiple(sizes[k], granularity)
      invariant fits ==> forall k :: 0 <= k < |sizes| && k < count - 1 ==> sizes[k] == chunk
    {
      var next := ChunkFrom(aligned, chunk, Start(i, chunk));
      if fits {
        ChunkAt(aligned, chunk, granularity, count, i);
        NextChunk(aligned, chunk, granularity, Start(i, chunk));
      }
      Extend(sizes, next);
      sizes := sizes + [next];
    }
  }

  lemma CountIs(aligned: nat, chunk: nat)
    requires chunk > 0 && aligned > 0 && aligned + chunk - 1 < WORD
    ensures
      var count := Count(aligned, chunk);
      && count > 0 && Start(0, chunk) == 0 && aligned <= Start(count, chunk) && Start(count - 1, chunk) < aligned
  {
    var count := (aligned + chunk - 1) / chunk;
    assert aligned + chunk - 1 == count * chunk + (aligned + chunk - 1) % chunk;
    if count > 0 {
      Grows(count - 1, count, chunk);
    }
  }

  /** Chunk i starts below the end, and the chunk after the last one does not. */
  lemma ChunkAt(aligned: nat, chunk: nat, g: nat, count: nat, i: nat)
    requires chunk > 0 && Multiple(chunk, g) && i < count
    requires aligned <= Start(count, chunk) && Start(count - 1, chunk) < aligned
    ensures Start(i, chunk) < aligned && Start(i + 1, chunk) == Start(i, chunk) + chunk && Multiple(Start(i, chunk), g)
    ensures if i + 1 < count then Start(i + 1, chunk) < aligned else aligned <= Start(i + 1, chunk)
  {
    Grows(i, count - 1, chunk);
    Grows(i + 1, count - 1, chunk);
    var q := chunk / g;
    assert chunk == q * g;
    Assoc(i, q, g);
    MultipleOf(i * q, g);
  }

  /** The subtraction does not wrap, and the chunk ends at the next start or at the end. */
  lemma NextChunk(aligned: nat, chunk: nat, g: nat, start: nat)
    requires chunk > 0 && Multiple(aligned, g) && Multiple(chunk, g) && Multiple(start, g) && start < aligned < WORD
    ensures
      var next := ChunkFrom(aligned, chunk, start);
      && 0 < next <= chunk && Multiple(next, g)
      && start + next == if start + chunk < aligned then start + chunk else aligned
  {
    SumOfMultiples(aligned, start, g);
  }

  lemma Assoc(a: nat, b: nat, c: nat)
    ensures a * (b * c) == (a * b) * c
  {
  }
}
