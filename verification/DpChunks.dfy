/**
  Token counts for data-parallel ranks (forward_context.py): tokens are sharded over the
  sequence-parallel ranks, and a step too large for one pass is done in chunks that every
  rank walks through in lockstep.
 */
module DpChunks {

  function CeilDiv(n: nat, d: nat): nat requires d > 0 { (n + d - 1) / d }

  function Repeat<T>(x: T, n: nat): (r: seq<T>) ensures |r| == n { seq(n, _ => x) }

  /** Each rank's count n times over. */
  function RepeatInterleave(s: seq<nat>, n: nat): seq<nat> {
    if s == [] then [] else Repeat(s[0], n) + RepeatInterleave(s[1..], n)
  }

  /** _compute_sp_num_tokens. */
  function SpTokens(tokens: seq<nat>, sp: nat): seq<nat>
    requires sp > 0
  {
    RepeatInterleave(seq(|tokens|, k requires 0 <= k < |tokens| => CeilDiv(tokens[k], sp)), sp)
  }

  lemma {:induction false} RepeatAt(s: seq<nat>, n: nat, i: nat)
    requires n > 0 && i < |s| * n
    ensures |RepeatInterleave(s, n)| == |s| * n && i / n < |s| && RepeatInterleave(s, n)[i] == s[i / n]
  {
    RepeatLength(s, n);
    Below(i, |s|, n);
    assert |s| * n == n + (|s| - 1) * n;
    if i >= n {
      RepeatAt(s[1..], n, i - n);
      Shift(i, n);
    } else {
      Small(i, n);
    }
  }

  lemma {:induction false} RepeatLength(s: seq<nat>, n: nat)
    ensures |RepeatInterleave(s, n)| == |s| * n
  {
    if s != [] {
      RepeatLength(s[1..], n);
      assert |s| * n == n + (|s| - 1) * n;
    }
  }

  lemma Small(i: nat, n: nat)
    requires i < n
    ensures i / n == 0
  {
  }

  lemma Shift(i: nat, n: nat)
    requires n > 0 && i >= n
    ensures i / n == (i - n) / n + 1
  {
    var q := (i - n) / n;
    assert i - n == q * n + (i - n) % n;
    Quotient(i, n, q + 1);
  }

  lemma Quotient(x: nat, n: nat, q: nat)
    requires n > 0 && q * n <= x < q * n + n
    ensures x / n == q
  {
    var d := x / n;
    assert x == d * n + x % n;
    Order(d, q, n);
    Order(q, d, n);
  }

  lemma {:induction false} Order(a: nat, b: nat, n: nat)
    ensures a < b ==> a * n + n <= b * n
  {
    if a < b {
      assert b * n == (b - 1) * n + n;
      Order(a, b - 1, n);
    }
  }

  lemma Below(i: nat, k: nat, n: nat)
    requires n > 0 && i < k * n
    ensures i / n < k
  {
    var d := i / n;
    assert i == d * n + i % n;
    assert (d + 1) * n == d * n + n;
    Order(k, d + 1, n);
  }

  lemma CeilIs(n: nat, d: nat)
    requires d > 0
    ensures n <= CeilDiv(n, d) * d < n + d
  {
    var q := CeilDiv(n, d);
    assert n + d - 1 == q * d + (n + d - 1) % d;
  }

  /** The shard of rank i belongs to group i / sp and is large enough: the shards of a group
      hold its tokens with less than sp to spare. */
  lemma ShardsCover(tokens: seq<nat>, sp: nat, i: nat)
    requires sp > 0 && i < |tokens| * sp
    ensures |SpTokens(tokens, sp)| == |tokens| * sp && i / sp < |tokens|
    ensures tokens[i / sp] <= SpTokens(tokens, sp)[i] * sp < tokens[i / sp] + sp
  {
    RepeatAt(seq(|tokens|, k requires 0 <= k < |tokens| => CeilDiv(tokens[k], sp)), sp, i);
    CeilIs(tokens[i / sp], sp);
  }

  // ----- Cumulative counts -----

  function CumSum(s: seq<nat>): (r: seq<nat>)
    ensures |r| == |s|
  {
    if s == [] then []
    else
      var r := CumSum(s[..|s| - 1]);
      r + [s[|s| - 1] + if r == [] then 0 else r[|r| - 1]]
  }

  /** cu_tokens_across_sp, with the counts rounded up as (n - 1 + sp) // sp. */
  function CuTokens(tokens: seq<nat>, sp: nat): seq<nat>
    requires sp > 0
  {
    CumSum(RepeatInterleave(seq(|tokens|, k requires 0 <= k < |tokens| => (tokens[k] - 1 + sp) / sp), sp))
  }

  lemma {:induction false} Differences(s: seq<nat>, i: nat)
    requires i < |s|
    ensures CumSum(s)[i] == s[i] + if i == 0 then 0 else CumSum(s)[i - 1]
  {
    if i < |s| - 1 {
      Differences(s[..|s| - 1], i);
    }
  }

  /** Consecutive differences of the cumulative counts are the sharded counts. */
  lemma CuTokensDifferences(tokens: seq<nat>, sp: nat, i: nat)
    requires sp > 0 && i < |tokens| * sp
    ensures |CuTokens(tokens, sp)| == |SpTokens(tokens, sp)| == |tokens| * sp
    ensures CuTokens(tokens, sp)[i] == SpTokens(tokens, sp)[i] + if i == 0 then 0 else CuTokens(tokens, sp)[i - 1]
  {
    var a := seq(|tokens|, k requires 0 <= k < |tokens| => CeilDiv(tokens[k], sp));
    var b := seq(|tokens|, k requires 0 <= k < |tokens| => (tokens[k] - 1 + sp) / sp);
    assert a == b;
    RepeatAt(a, sp, i);
    Differences(SpTokens(tokens, sp), i);
  }

  // ----- Chunks -----

  /** What chunk number k of a rank with s tokens holds; a rank that is done runs one dummy. */
  function ChunkSize(s: nat, max: nat, k: nat): int {
    var rest := s - max * k;
    var size := if rest < max then rest else max;
    if size <= 0 then 1 else size
  }

  /** _compute_chunked_local_num_tokens. */
  method ChunkedLocalNumTokens(tokens: seq<nat>, sp: nat, max: nat, chunk: nat) returns (sizes: seq<int>)
    requires sp > 0
    ensures |sizes| == |SpTokens(tokens, sp)|
    ensures forall i :: 0 <= i < |sizes| ==> sizes[i] == ChunkSize(SpTokens(tokens, sp)[i], max, chunk)
    ensures max >= 1 ==> forall i :: 0 <= i < |sizes| ==> 1 <= sizes[i] <= max
  {
    var shards := SpTokens(tokens, sp);
    hide SpTokens;
    sizes := seq(|shards|, _ => -1);
    for i := 0 to |shards|
      invariant |sizes| == |shards|
      invariant forall j :: 0 <= j < i ==> sizes[j] == ChunkSize(shards[j], max, chunk)
      invariant max >= 1 ==> forall j :: 0 <= j < i ==> 1 <= sizes[j] <= max
    {
      var rest := shards[i] - max * chunk;
      var size := if max < rest then max else rest;
      sizes := sizes[i := if size <= 0 then 1 else size];
    }
  }

  /** The first n chunks of a rank together. */
  ghost function Processed(s: nat, max: nat, n: nat): int {
    if n == 0 then 0 else Processed(s, max, n - 1) + ChunkSize(s, max, n - 1)
  }

  /** After n chunks a rank has run its tokens, as far as n full chunks reach, and one dummy
      for every chunk past its own. */
  lemma {:induction false} ChunksAddUp(s: nat, max: nat, n: nat)
    requires max >= 1
    ensures n <= CeilDiv(s, max) ==> Processed(s, max, n) == if n * max < s then n * max else s
    ensures n >= CeilDiv(s, max) ==> Processed(s, max, n) == s + (n - CeilDiv(s, max))
  {
    hide CeilDiv;
    CeilIs(s, max);
    var c := CeilDiv(s, max);
    if n == 0 {
      NoChunk(s, max);
    } else {
      ChunksAddUp(s, max, n - 1);
      assert n * max == (n - 1) * max + max;
      Commutes(max, n - 1);
      Order(n - 1, c, max);
      Order(c, n, max);
      Order(n, c, max);
    }
  }

  lemma Commutes(a: nat, b: nat)
    ensures a * b == b * a
  {
  }

  lemma NoChunk(s: nat, max: nat)
    requires max >= 1
    ensures CeilDiv(s, max) == 0 <==> s == 0
  {
    CeilIs(s, max);
  }

  /** When k chunks are enough for s tokens, they add up to the tokens and the dummies. */
  lemma LockstepTotal(s: nat, max: nat, k: nat)
    requires max >= 1 && k * max >= s
    ensures CeilDiv(s, max) <= k && Processed(s, max, k) == s + (k - CeilDiv(s, max))
  {
    CeilIs(s, max);
    Order(k, CeilDiv(s, max), max);
    ChunksAddUp(s, max, k);
  }
}
