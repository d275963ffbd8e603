/**
  Merging streamed request outputs (outputs.py): deltas are folded into one output in place,
  completion by completion.
 */
module StreamMerge {
  import opened Options

  /** The logprobs of one position. */
  type Position = map<int, real>

  /** The fields of a completion that merging touches. */
  datatype Comp = Comp(index: int, text: string, tokens: seq<int>, logprobs: Option<seq<Position>>,
                       cumulative: Option<real>, finish: Option<string>, stop: Option<string>)

  /** Logprobs arrive for a completion that has none: the source's assertion fails. */
  predicate Clash(a: Comp, n: Comp) { n.logprobs.Some? && n.logprobs.value != [] && a.logprobs.None? }

  /** A delta appended to a completion of the same index. */
  function Merged(a: Comp, n: Comp): Comp {
    Comp(a.index, a.text + n.text, a.tokens + n.tokens,
         if a.logprobs.Some? && n.logprobs.Some? then Some(a.logprobs.value + n.logprobs.value) else a.logprobs,
         n.cumulative, n.finish, n.stop)
  }

  /** The first completion with an index, or the length. */
  function Find(cs: seq<Comp>, i: int): (k: nat)
    ensures k <= |cs| && (k < |cs| ==> cs[k].index == i)
    ensures forall j :: 0 <= j < k ==> cs[j].index != i
  {
    if cs == [] || cs[0].index == i then 0 else 1 + Find(cs[1..], i)
  }

  function Put(cs: seq<Comp>, n: Comp, aggregate: bool): seq<Comp> {
    var k := Find(cs, n.index);
    if k == |cs| then cs + [n] else cs[k := if aggregate then Merged(cs[k], n) else n]
  }

  function PutAll(cs: seq<Comp>, ns: seq<Comp>, aggregate: bool): seq<Comp> {
    if ns == [] then cs else Put(PutAll(cs, ns[..|ns| - 1], aggregate), ns[|ns| - 1], aggregate)
  }

  // ----- What a fold gives -----

  ghost predicate Distinct(cs: seq<Comp>) { forall j, k :: 0 <= j < k < |cs| ==> cs[j].index != cs[k].index }

  function Indices(cs: seq<Comp>): (r: seq<int>) ensures |r| == |cs| {
    seq(|cs|, k requires 0 <= k < |cs| => cs[k].index)
  }

  /** The indices in order of first appearance. */
  ghost function Firsts(s: seq<int>): seq<int> {
    if s == [] then []
    else
      var r := Firsts(s[..|s| - 1]);
      if s[|s| - 1] in r then r else r + [s[|s| - 1]]
  }

  /** The k-th index is met for the first time before the ones after it. */
  lemma {:induction false} FirstsOrder(s: seq<int>, j: nat, k: nat) returns (a: nat, b: nat)
    requires j < k < |Firsts(s)|
    ensures a < b < |s| && s[a] == Firsts(s)[j] && s[b] == Firsts(s)[k]
    ensures Firsts(s)[j] !in s[..a] && Firsts(s)[k] !in s[..b]
  {
    var n := |s| - 1;
    var r := Firsts(s[..n]);
    if k < |r| {
      a, b := FirstsOrder(s[..n], j, k);
    } else {
      a := FirstsAt(s[..n], j);
      b := n;
      FirstsAll(s[..n], s[n]);
    }
    assert s[..n][..a] == s[..a];
    assert b <= n && s[..n][..b] == s[..b];
  }

  lemma {:induction false} FirstsAt(s: seq<int>, k: nat) returns (a: nat)
    requires k < |Firsts(s)|
    ensures a < |s| && s[a] == Firsts(s)[k] && Firsts(s)[k] !in s[..a]
  {
    var n := |s| - 1;
    if k < |Firsts(s[..n])| {
      a := FirstsAt(s[..n], k);
      assert s[..n][..a] == s[..a];
    } else {
      a := n;
      FirstsAll(s[..n], s[n]);
    }
  }

  lemma {:induction false} FirstsAll(s: seq<int>, x: int)
    ensures x in Firsts(s) <==> x in s
  {
    if s != [] {
      FirstsAll(s[..|s| - 1], x);
      assert s == s[..|s| - 1] + [s[|s| - 1]];
    }
  }

  ghost function Texts(cs: seq<Comp>, i: int): string {
    if cs == [] then "" else Texts(cs[..|cs| - 1], i) + if cs[|cs| - 1].index == i then cs[|cs| - 1].text else ""
  }

  ghost function Tokens(cs: seq<Comp>, i: int): seq<int> {
    if cs == [] then [] else Tokens(cs[..|cs| - 1], i) + if cs[|cs| - 1].index == i then cs[|cs| - 1].tokens else []
  }

  ghost function Logprobs(cs: seq<Comp>, i: int): seq<Position> {
    if cs == [] then []
    else
      var n := cs[|cs| - 1];
      Logprobs(cs[..|cs| - 1], i) + if n.index == i && n.logprobs.Some? then n.logprobs.value else []
  }

  /** The last delta with an index. */
  ghost function Last(cs: seq<Comp>, i: int): Option<Comp> {
    if cs == [] then None else if cs[|cs| - 1].index == i then Some(cs[|cs| - 1]) else Last(cs[..|cs| - 1], i)
  }

  /** Logprobs are present in every completion or in none. */
  ghost predicate Uniform(cs: seq<Comp>, present: bool) {
    forall k :: 0 <= k < |cs| ==> cs[k].logprobs.Some? == present
  }

  /** Logprobs are present in all the completions of both lists, or in none. */
  ghost predicate Consistent(vs: seq<Comp>, ws: seq<Comp>) {
    exists present :: Uniform(vs, present) && Uniform(ws, present)
  }

  /** Completion c is what the deltas of its index add up to. */
  ghost predicate Sums(c: Comp, ns: seq<Comp>, present: bool) {
    && c.text == Texts(ns, c.index) && c.tokens == Tokens(ns, c.index)
    && (if present then c.logprobs == Some(Logprobs(ns, c.index)) else c.logprobs == None)
    && Last(ns, c.index).Some?
    && c.cumulative == Last(ns, c.index).value.cumulative
    && c.finish == Last(ns, c.index).value.finish && c.stop == Last(ns, c.index).value.stop
  }

  /** A list stands for a stream of deltas: one completion per index in order of first
      appearance, each the sum of its deltas. */
  ghost predicate StandsFor(cs: seq<Comp>, ns: seq<Comp>, present: bool) {
    && Distinct(cs) && Indices(cs) == Firsts(Indices(ns))
    && forall k :: 0 <= k < |cs| ==> Sums(cs[k], ns, present)
  }

  /** One more delta. */
  lemma PutStands(cs: seq<Comp>, ns: seq<Comp>, n: Comp, present: bool)
    requires StandsFor(cs, ns, present) && n.logprobs.Some? == present
    ensures StandsFor(Put(cs, n, true), ns + [n], present)
  {
    var all, r := ns + [n], Put(cs, n, true);
    var k := Find(cs, n.index);
    assert all[..|ns|] == ns;
    assert Indices(all) == Indices(ns) + [n.index];
    assert Indices(all)[..|ns|] == Indices(ns);
    assert n.index in Indices(cs) <==> k < |cs| by {
      if k < |cs| { assert Indices(cs)[k] == n.index; }
    }
    PutIndices(cs, n, true);
    forall j | 0 <= j < |r| ensures Sums(r[j], all, present) {
      if j == k {
        PutSums(cs, ns, n, k, present);
      } else {
        OtherSums(r[j], ns, n, present);
      }
    }
  }

  lemma PutIndices(cs: seq<Comp>, n: Comp, aggregate: bool)
    requires Distinct(cs)
    ensures Distinct(Put(cs, n, aggregate))
    ensures Indices(Put(cs, n, aggregate)) == if n.index in Indices(cs) then Indices(cs) else Indices(cs) + [n.index]
  {
    var k := Find(cs, n.index);
    assert n.index in Indices(cs) <==> k < |cs| by {
      if k < |cs| { assert Indices(cs)[k] == n.index; }
    }
  }

  lemma OtherSums(c: Comp, ns: seq<Comp>, n: Comp, present: bool)
    requires Sums(c, ns, present) && c.index != n.index
    ensures Sums(c, ns + [n], present)
  {
    assert (ns + [n])[..|ns|] == ns;
    assert Logprobs(ns, c.index) + [] == Logprobs(ns, c.index);
  }

  lemma PutSums(cs: seq<Comp>, ns: seq<Comp>, n: Comp, k: nat, present: bool)
    requires StandsFor(cs, ns, present) && n.logprobs.Some? == present && k == Find(cs, n.index)
    ensures Sums(Put(cs, n, true)[k], ns + [n], present)
  {
    assert (ns + [n])[..|ns|] == ns;
    if k == |cs| {
      Unseen(ns, n.index) by { NotFirst(cs, ns, n.index); }
      assert present ==> [] + n.logprobs.value == n.logprobs.value;
    }
  }

  lemma NotFirst(cs: seq<Comp>, ns: seq<Comp>, i: int)
    requires Indices(cs) == Firsts(Indices(ns)) && Find(cs, i) == |cs|
    ensures i !in Firsts(Indices(ns))
  {
    assert forall k :: 0 <= k < |cs| ==> Indices(cs)[k] != i;
  }

  /** An index that never appeared contributes nothing. */
  lemma {:induction false} Unseen(ns: seq<Comp>, i: int)
    requires i !in Firsts(Indices(ns))
    ensures Texts(ns, i) == "" && Tokens(ns, i) == [] && Logprobs(ns, i) == []
  {
    if ns != [] {
      var m := |ns| - 1;
      assert Indices(ns)[..m] == Indices(ns[..m]);
      Unseen(ns[..m], i);
    }
  }

  /** Folding any stream of deltas: every index gets the concatenation of its texts, tokens
      and logprobs in arrival order, and the fields of its last delta. */
  lemma {:induction false} FoldStands(cs: seq<Comp>, ns: seq<Comp>, more: seq<Comp>, present: bool)
    requires StandsFor(cs, ns, present) && Uniform(more, present)
    ensures StandsFor(PutAll(cs, more, true), ns + more, present)
  {
    hide StandsFor;
    if more == [] {
      assert ns + more == ns;
    } else {
      var n := |more| - 1;
      FoldStands(cs, ns, more[..n], present);
      PutStands(PutAll(cs, more[..n], true), ns + more[..n], more[n], present);
      assert ns + more == ns + more[..n] + [more[n]];
    }
  }

  /** In particular any stream folded from nothing. */
  lemma StreamStands(ns: seq<Comp>, present: bool)
    requires Uniform(ns, present)
    ensures StandsFor(PutAll([], ns, true), ns, present)
  {
    assert StandsFor([], [], present);
    hide StandsFor;
    FoldStands([], [], ns, present);
    assert [] + ns == ns;
  }

  // ----- Regrouping -----

  lemma MergedTwice(a: Comp, b: Comp, c: Comp, present: bool)
    requires a.logprobs.Some? == b.logprobs.Some? == c.logprobs.Some? == present
    ensures Merged(Merged(a, b), c) == Merged(a, Merged(b, c))
  {
    assert a.text + b.text + c.text == a.text + (b.text + c.text);
    assert a.tokens + b.tokens + c.tokens == a.tokens + (b.tokens + c.tokens);
    if present {
      assert a.logprobs.value + b.logprobs.value + c.logprobs.value ==
             a.logprobs.value + (b.logprobs.value + c.logprobs.value);
    }
  }

  lemma FindIn(cs: seq<Comp>, k: nat, i: int)
    requires k < |cs| && cs[k].index == i && forall j :: 0 <= j < k ==> cs[j].index != i
    ensures Find(cs, i) == k
  {
  }

  /** Putting two merged deltas is putting one after the other. */
  lemma Fuse(cs: seq<Comp>, b: Comp, n: Comp, present: bool)
    requires Uniform(cs, present) && b.index == n.index && b.logprobs.Some? == n.logprobs.Some? == present
    ensures Put(Put(cs, b, true), n, true) == Put(cs, Merged(b, n), true)
  {
    hide Merged;
    var k := Find(cs, b.index);
    SameIndex(b, n);
    if k == |cs| {
      FindIn(cs + [b], k, n.index);
    } else {
      SameIndex(cs[k], b);
      FindIn(cs[k := Merged(cs[k], b)], k, n.index);
      MergedTwice(cs[k], b, n, present);
    }
  }

  lemma SameIndex(a: Comp, n: Comp)
    ensures Merged(a, n).index == a.index && Merged(a, n).logprobs.Some? == a.logprobs.Some?
  {
  }

  /** Deltas of different indices commute once the earlier index is there. */
  lemma Swap(cs: seq<Comp>, n: Comp, x: Comp)
    requires n.index != x.index && Find(cs, n.index) < |cs|
    ensures Put(Put(cs, n, true), x, true) == Put(Put(cs, x, true), n, true)
  {
    hide Merged, Put, Find;
    var j, k := Find(cs, n.index), Find(cs, x.index);
    PutAt(cs, n);
    SameIndex(cs[j], n);
    var withN := cs[j := Merged(cs[j], n)];
    if k < |cs| {
      PutAt(cs, x);
      SameIndex(cs[k], x);
      var withX := cs[k := Merged(cs[k], x)];
      FindIn(withN, k, x.index);
      FindIn(withX, j, n.index);
      PutAt(withN, x);
      PutAt(withX, n);
    } else {
      PutNew(cs, x);
      FindNone(withN, x.index);
      PutNew(withN, x);
      FindIn(cs + [x], j, n.index);
      PutAt(cs + [x], n);
    }
  }

  lemma PutNew(b: seq<Comp>, n: Comp)
    requires Find(b, n.index) == |b|
    ensures Put(b, n, true) == b + [n]
  {
  }

  lemma {:induction false} FindNone(cs: seq<Comp>, i: int)
    requires forall j :: 0 <= j < |cs| ==> cs[j].index != i
    ensures Find(cs, i) == |cs|
  {
    if cs != [] { FindNone(cs[1..], i); }
  }

  lemma PutUniform(cs: seq<Comp>, n: Comp, present: bool)
    requires Uniform(cs, present) && n.logprobs.Some? == present
    ensures Uniform(Put(cs, n, true), present) && Find(Put(cs, n, true), n.index) < |Put(cs, n, true)|
  {
    var k := Find(cs, n.index);
    FindIn(Put(cs, n, true), k, n.index);
  }

  lemma PutKeepsFound(cs: seq<Comp>, x: Comp, i: int)
    requires Find(cs, i) < |cs|
    ensures Find(Put(cs, x, true), i) < |Put(cs, x, true)|
  {
    FindIn(Put(cs, x, true), Find(cs, i), i);
  }

  lemma {:induction false} PutAllUniform(cs: seq<Comp>, ns: seq<Comp>, present: bool)
    requires Uniform(cs, present) && Uniform(ns, present)
    ensures Uniform(PutAll(cs, ns, true), present)
  {
    if ns != [] {
      PutAllUniform(cs, ns[..|ns| - 1], present);
      PutUniform(PutAll(cs, ns[..|ns| - 1], true), ns[|ns| - 1], present);
    }
  }

  /** A delta moves past others of different indices. */
  lemma {:induction false} SwapAll(cs: seq<Comp>, n: Comp, xs: seq<Comp>)
    requires Find(cs, n.index) < |cs| && forall k :: 0 <= k < |xs| ==> xs[k].index != n.index
    ensures PutAll(Put(cs, n, true), xs, true) == Put(PutAll(cs, xs, true), n, true)
    ensures Find(PutAll(cs, xs, true), n.index) < |PutAll(cs, xs, true)|
  {
    hide Put;
    if xs != [] {
      var m := |xs| - 1;
      SwapAll(cs, n, xs[..m]);
      Swap(PutAll(cs, xs[..m], true), n, xs[m]);
      PutKeepsFound(PutAll(cs, xs[..m], true), xs[m], n.index);
    }
  }

  lemma {:induction false} PutAllConcat(cs: seq<Comp>, xs: seq<Comp>, ys: seq<Comp>, aggregate: bool)
    ensures PutAll(cs, xs + ys, aggregate) == PutAll(PutAll(cs, xs, aggregate), ys, aggregate)
  {
    hide Put;
    if ys == [] {
      assert xs + ys == xs;
    } else {
      var m := |ys| - 1;
      assert (xs + ys)[..|xs + ys| - 1] == xs + ys[..m];
      PutAllConcat(cs, xs, ys[..m], aggregate);
    }
  }

  /** Adding a delta to the second output, or after it, is the same to the first. */
  lemma PutLater(a: seq<Comp>, b: seq<Comp>, n: Comp, present: bool)
    requires Uniform(a, present) && Uniform(b, present) && n.logprobs.Some? == present && Distinct(b)
    ensures PutAll(a, Put(b, n, true), true) == Put(PutAll(a, b, true), n, true)
  {
    hide Put, Merged, Find;
    var j := Find(b, n.index);
    if j == |b| {
      PutNew(b, n);
      OneAfter(a, b, n);
    } else {
      PutAt(b, n);
      PutMiddle(a, b, n, j, present);
    }
  }

  lemma PutMiddle(a: seq<Comp>, b: seq<Comp>, n: Comp, j: nat, present: bool)
    requires Uniform(a, present) && Uniform(b, present) && n.logprobs.Some? == present && Distinct(b)
    requires j < |b| && b[j].index == n.index
    ensures PutAll(a, b[j := Merged(b[j], n)], true) == Put(PutAll(a, b, true), n, true)
  {
    hide Put, Merged, Find;
    var before, after, both := b[..j], b[j + 1..], Merged(b[j], n);
    var p := PutAll(a, before, true);
    assert b == before + [b[j]] + after && b[j := both] == before + [both] + after;
    PutAllUniform(a, before, present);
    PutAllConcat(a, before + [both], after, true);
    PutAllConcat(a, before + [b[j]], after, true);
    OneAfter(a, before, both);
    OneAfter(a, before, b[j]);
    Fuse(p, b[j], n, present);
    PutUniform(p, b[j], present);
    SwapAll(Put(p, b[j], true), n, after);
  }

  lemma PutAt(b: seq<Comp>, n: Comp)
    requires Find(b, n.index) < |b|
    ensures Put(b, n, true) == b[Find(b, n.index) := Merged(b[Find(b, n.index)], n)]
  {
  }

  lemma OneAfter(a: seq<Comp>, before: seq<Comp>, x: Comp)
    ensures PutAll(a, before + [x], true) == Put(PutAll(a, before, true), x, true)
  {
    assert (before + [x])[..|before|] == before;
  }

  /** Merging is associative: the stream may be regrouped before it reaches the output. */
  lemma {:induction false} MergeIsAssociative(a: seq<Comp>, b: seq<Comp>, c: seq<Comp>, present: bool)
    requires Uniform(a, present) && Uniform(b, present) && Uniform(c, present) && Distinct(b)
    ensures PutAll(a, PutAll(b, c, true), true) == PutAll(PutAll(a, b, true), c, true)
    ensures Distinct(PutAll(b, c, true))
  {
    hide Put;
    if c != [] {
      var m := |c| - 1;
      MergeIsAssociative(a, b, c[..m], present);
      PutAllUniform(b, c[..m], present);
      PutLater(a, PutAll(b, c[..m], true), c[m], present);
      PutIndices(PutAll(b, c[..m], true), c[m], true);
    }
  }

  // ----- Replacing instead of merging -----

  /** One completion per index in order of first appearance, each the last delta of its index. */
  ghost predicate Latest(cs: seq<Comp>, ns: seq<Comp>) {
    && Distinct(cs) && Indices(cs) == Firsts(Indices(ns))
    && forall k :: 0 <= k < |cs| ==> Last(ns, cs[k].index) == Some(cs[k])
  }

  lemma PutReplaces(cs: seq<Comp>, ns: seq<Comp>, n: Comp)
    requires Latest(cs, ns)
    ensures Latest(Put(cs, n, false), ns + [n])
  {
    hide Firsts, Find;
    PutIndices(cs, n, false);
    FirstsNext(ns, n);
    assert (ns + [n])[..|ns|] == ns;
    var r, k := Put(cs, n, false), Find(cs, n.index);
    forall j | 0 <= j < |r| ensures Last(ns + [n], r[j].index) == Some(r[j]) {
      assert if j == k then r[j] == n else r[j] == cs[j] && cs[j].index != n.index;
    }
  }

  lemma FirstsNext(ns: seq<Comp>, n: Comp)
    ensures
      var r := Firsts(Indices(ns));
      Firsts(Indices(ns + [n])) == if n.index in r then r else r + [n.index]
  {
    assert Indices(ns + [n]) == Indices(ns) + [n.index];
    assert Indices(ns + [n])[..|ns|] == Indices(ns);
  }

  lemma {:induction false} FoldReplaces(cs: seq<Comp>, ns: seq<Comp>, more: seq<Comp>)
    requires Latest(cs, ns)
    ensures Latest(PutAll(cs, more, false), ns + more)
  {
    hide Latest;
    if more == [] {
      assert ns + more == ns;
    } else {
      var n := |more| - 1;
      FoldReplaces(cs, ns, more[..n]);
      PutReplaces(PutAll(cs, more[..n], false), ns + more[..n], more[n]);
      assert ns + more == ns + more[..n] + [more[n]];
    }
  }

  // ----- In place -----

  /** CompletionOutput. */
  class Completion {
    var index: int
    var text: string
    var tokens: seq<int>
    var logprobs: Option<seq<Position>>
    var cumulative: Option<real>
    var finish: Option<string>
    var stop: Option<string>

    function View(): Comp
      reads this
    {
      Comp(index, text, tokens, logprobs, cumulative, finish, stop)
    }

    constructor (c: Comp)
      ensures View() == c
    {
      index, text, tokens, logprobs := c.index, c.text, c.tokens, c.logprobs;
      cumulative, finish, stop := c.cumulative, c.finish, c.stop;
    }

    /** The branch that aggregates; false is the failed assertion. */
    method Absorb(n: Completion) returns (ok: bool)
      requires n != this
      modifies this
      ensures ok <==> !Clash(old(View()), n.View())
      ensures ok ==> View() == Merged(old(View()), n.View())
    {
      text := text + n.text;
      tokens := tokens + n.tokens;
      if n.logprobs.Some? && n.logprobs.value != [] {
        if logprobs.None? {
          return false;
        }
        logprobs := Some(logprobs.value + n.logprobs.value);
      } else if n.logprobs.Some? && logprobs.Some? {
        assert logprobs.value + n.logprobs.value == logprobs.value;
      }
      cumulative, finish, stop := n.cumulative, n.finish, n.stop;
      return true;
    }
  }

  ghost function Views(cs: seq<Completion>): (r: seq<Comp>)
    reads cs
    ensures |r| == |cs|
    ensures forall k :: 0 <= k < |r| ==> r[k] == cs[k].View()
  {
    seq(|cs|, k requires 0 <= k < |cs| reads cs => cs[k].View())
  }

  /** Every object of the list is one of these or of those. */
  ghost predicate Among(cs: seq<Completion>, these: seq<Completion>, those: seq<Completion>) {
    forall c :: c in cs ==> c in these || c in those
  }

  ghost predicate Separate(a: seq<Completion>, b: seq<Completion>) { forall x, y :: x in a && y in b ==> x != y }

  ghost predicate Apart(cs: seq<Completion>) { forall j, k :: 0 <= j < k < |cs| ==> cs[j] != cs[k] }

  class RequestOutput {
    var outputs: seq<Completion>
    var finished: bool
    var kvTransferParams: Option<string>

    constructor (outputs: seq<Completion>, finished: bool, kv: Option<string>)
      ensures this.outputs == outputs && this.finished == finished && kvTransferParams == kv
    {
      this.outputs, this.finished, kvTransferParams := outputs, finished, kv;
    }

    /** One completion of the next output. */
    method Place(n: Completion, aggregate: bool) returns (ok: bool)
      requires Apart(outputs) && n !in outputs
      modifies this`outputs, outputs
      ensures ok ==> Views(outputs) == Put(old(Views(outputs)), old(n.View()), aggregate)
      ensures Apart(outputs) && Among(outputs, old(outputs), [n])
      ensures n.View() == old(n.View())
      ensures ok <==> !(aggregate && Clashes(old(Views(outputs)), old(n.View())))
    {
      hide Among, Apart;
      ghost var vs := Views(outputs);
      var k := 0;
      while k < |outputs| && outputs[k].index != n.index
        invariant k <= |outputs| && outputs == old(outputs) && Views(outputs) == vs
        invariant forall j :: 0 <= j < k ==> vs[j].index != n.index
      {
        k := k + 1;
      }
      ok := true;
      if k == |outputs| {
        FindNone(vs, n.index);
        WithOneMore(outputs, n);
        outputs := outputs + [n];
      } else {
        FindIn(vs, k, n.index);
        WithOneReplaced(outputs, k, n);
        if aggregate {
          ok := outputs[k].Absorb(n);
        } else {
          outputs := outputs[k := n];
        }
      }
    }

    /** Merges the next output into this one; it fails exactly when, at some step of the
        merging, logprobs meet a completion without any. */
    method Add(next: RequestOutput, aggregate: bool) returns (ok: bool)
      requires Apart(outputs + next.outputs) && next != this
      modifies this, outputs, next.outputs
      ensures next.outputs == old(next.outputs)
      ensures ok ==> Views(outputs) == PutAll(old(Views(outputs)), old(Views(next.outputs)), aggregate)
      ensures ok ==> finished == (old(finished) || next.finished) && kvTransferParams == next.kvTransferParams
      ensures Apart(outputs) && Among(outputs, old(outputs), next.outputs)
      ensures ok <==> !(aggregate && ClashesSomewhere(old(Views(outputs)), old(Views(next.outputs))))
    {
      hide ClashesSomewhere;
      ghost var vs, ws := Views(outputs), Views(next.outputs);
      finished := finished || next.finished;
      kvTransferParams := next.kvTransferParams;
      assert Views(outputs) == vs && Views(next.outputs) == ws;
      ok := PlaceAll(next.outputs, aggregate);
    }

    /** The completions of the next output, one after the other. */
    method PlaceAll(theirs: seq<Completion>, aggregate: bool) returns (ok: bool)
      requires Apart(outputs + theirs)
      modifies this`outputs, outputs, theirs
      ensures ok ==> Views(outputs) == PutAll(old(Views(outputs)), old(Views(theirs)), aggregate)
      ensures Apart(outputs) && Among(outputs, old(outputs), theirs)
      ensures ok <==> !(aggregate && ClashesSomewhere(old(Views(outputs)), old(Views(theirs))))
    {
      hide Put, Clashes;
      ghost var vs, ws, mine := Views(outputs), Views(theirs), outputs;
      Halves(mine, theirs);
      assert ws[..0] == [] && ws[..|ws|] == ws && PutAll(vs, [], aggregate) == vs;
      assert theirs[..0] == [] && Among(mine, mine, []);
      hide Apart, Separate, PutAll, Among;
      for m := 0 to |theirs|
        invariant Apart(outputs) && Among(outputs, mine, theirs[..m])
        invariant Views(outputs) == PutAll(vs, ws[..m], aggregate)
        invariant aggregate ==> forall k :: 0 <= k < m ==> !ClashesAt(vs, ws, k)
        invariant forall k :: m <= k < |theirs| ==> theirs[k].View() == ws[k]
      {
        NotYetPlaced(mine, theirs, outputs, m);
        ghost var was := outputs;
        assert forall k :: 0 <= k < |outputs| ==> outputs[k] in old(outputs) || outputs[k] in theirs;
        label Before:
        ok := Place(theirs[m], aggregate);
        forall k | m < k < |theirs| ensures theirs[k].View() == ws[k] {
          assert theirs[k] !in was && theirs[k].View() == old@Before(theirs[k].View());
        }
        AmongMore(mine, theirs, was, outputs, m);
        if !ok {
          assert ClashesAt(vs, ws, m);
          return;
        }
        NextPut(vs, ws, m, aggregate);
      }
      assert theirs[..|theirs|] == theirs;
      return true;
    }
  }

  lemma Halves(a: seq<Completion>, b: seq<Completion>)
    requires Apart(a + b)
    ensures Apart(a) && Apart(b) && Separate(a, b)
  {
    forall j, k | 0 <= j < |a| && 0 <= k < |b| ensures a[j] != b[k] {
      assert (a + b)[j] == a[j] && (a + b)[|a| + k] == b[k];
    }
    forall j, k | 0 <= j < k < |a| ensures a[j] != a[k] {
      assert (a + b)[j] == a[j] && (a + b)[k] == a[k];
    }
    forall j, k | 0 <= j < k < |b| ensures b[j] != b[k] {
      assert (a + b)[|a| + j] == b[j] && (a + b)[|a| + k] == b[k];
    }
  }

  /** The completions still to come are not in the list yet. */
  lemma WithOneMore(cs: seq<Completion>, n: Completion)
    requires Apart(cs) && n !in cs
    ensures Apart(cs + [n]) && Among(cs + [n], cs, [n])
  {
  }

  lemma WithOneReplaced(cs: seq<Completion>, k: nat, n: Completion)
    requires Apart(cs) && n !in cs && k < |cs|
    ensures Apart(cs[k := n]) && Among(cs[k := n], cs, [n]) && Among(cs, cs, [n])
    ensures forall j :: 0 <= j < |cs| && j != k ==> cs[j] != cs[k]
  {
  }

  lemma AmongMore(mine: seq<Completion>, theirs: seq<Completion>, was: seq<Completion>, now: seq<Completion>, m: nat)
    requires m < |theirs| && Among(was, mine, theirs[..m]) && Among(now, was, [theirs[m]])
    ensures Among(now, mine, theirs[..m + 1]) && Among(now, mine, theirs)
  {
    assert theirs[..m + 1] == theirs[..m] + [theirs[m]];
  }

  lemma NotYetPlaced(mine: seq<Completion>, theirs: seq<Completion>, outputs: seq<Completion>, m: nat)
    requires Apart(theirs) && Separate(mine, theirs) && m < |theirs|
    requires Among(outputs, mine, theirs[..m])
    ensures forall c :: c in outputs ==> c in mine || c in theirs
    ensures forall k :: m <= k < |theirs| ==> theirs[k] !in outputs
    ensures forall k :: m < k < |theirs| ==> theirs[k] != theirs[m]
  {
    forall k | m <= k < |theirs| ensures theirs[k] !in outputs {
      assert theirs[k] in theirs && theirs[k] !in theirs[..m];
    }
  }

  lemma NextPut(vs: seq<Comp>, ws: seq<Comp>, m: nat, aggregate: bool)
    requires m < |ws|
    ensures PutAll(vs, ws[..m + 1], aggregate) == Put(PutAll(vs, ws[..m], aggregate), ws[m], aggregate)
  {
    assert ws[..m + 1][..m] == ws[..m];
  }

  /** The fold clashes at its step m. */
  ghost predicate ClashesAt(vs: seq<Comp>, ws: seq<Comp>, m: nat)
    requires m < |ws|
  {
    Clashes(PutAll(vs, ws[..m], true), ws[m])
  }

  ghost predicate ClashesSomewhere(vs: seq<Comp>, ws: seq<Comp>) {
    exists m :: 0 <= m < |ws| && ClashesAt(vs, ws, m)
  }

  /** It never does when logprobs are present everywhere or nowhere. */
  lemma ConsistentNeverClashes(vs: seq<Comp>, ws: seq<Comp>)
    requires Consistent(vs, ws)
    ensures !ClashesSomewhere(vs, ws)
  {
    var present :| Uniform(vs, present) && Uniform(ws, present);
    forall m | 0 <= m < |ws| ensures !ClashesAt(vs, ws, m) {
      PutAllUniform(vs, ws[..m], present);
    }
  }

  /** Logprobs would be added to a completion that has none. */
  ghost predicate Clashes(cs: seq<Comp>, n: Comp) {
    Find(cs, n.index) < |cs| && Clash(cs[Find(cs, n.index)], n)
  }
}
