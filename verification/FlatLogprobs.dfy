/**
  Flat logprobs (logprobs.py): six parallel lists that must act like the list of
  dictionaries they replace.
 */
module FlatLogprobs {
  import opened Options

  datatype Logprob = Logprob(logprob: real, rank: Option<int>, decoded: Option<string>)

  /** One entry of a dictionary, in insertion order. */
  datatype Item = Item(token: int, logprob: Logprob)

  type Dict = map<int, Logprob>

  /** A dictionary built from items; a later item wins over an earlier one with its token. */
  function ToMap(items: seq<Item>): Dict {
    if items == [] then map[] else ToMap(items[..|items| - 1])[items[|items| - 1].token := items[|items| - 1].logprob]
  }

  /** The lists as values: where each position begins and ends, and the items. */
  datatype Flat = Flat(starts: seq<int>, ends: seq<int>, items: seq<Item>)

  /** Positions follow each other inside the items; gaps are allowed. */
  ghost predicate Ordered(f: Flat) {
    && |f.starts| == |f.ends|
    && (forall k :: 0 <= k < |f.starts| ==> 0 <= f.starts[k] <= f.ends[k] <= |f.items|)
    && forall j, k :: 0 <= j < k < |f.starts| ==> f.ends[j] <= f.starts[k]
  }

  /** The list of dictionaries that a container stands for. */
  ghost function Model(f: Flat): (r: seq<Dict>)
    requires Ordered(f)
    ensures |r| == |f.starts|
  {
    seq(|f.starts|, k requires 0 <= k < |f.starts| => ToMap(f.items[f.starts[k]..f.ends[k]]))
  }

  /** items[i] as Python reads it: negative indices count from the end, others fail. */
  function ItemAt(items: seq<Item>, i: int): Option<Item> {
    if 0 <= i < |items| then Some(items[i])
    else if -|items| <= i < 0 then Some(items[|items| + i])
    else None
  }

  /** The dictionary over a range of item indices; None is an IndexError. */
  function ReadRange(items: seq<Item>, lo: int, hi: int): Option<Dict>
    decreases hi - lo
  {
    if lo >= hi then Some(map[])
    else
      match (ReadRange(items, lo, hi - 1), ItemAt(items, hi - 1))
      case (Some(m), Some(x)) => Some(m[x.token := x.logprob])
      case _ => None
  }

  lemma {:induction false} ReadInside(items: seq<Item>, lo: int, hi: int)
    requires 0 <= lo <= hi <= |items|
    ensures ReadRange(items, lo, hi) == Some(ToMap(items[lo..hi]))
    decreases hi - lo
  {
    if lo < hi {
      ReadInside(items, lo, hi - 1);
      assert items[lo..hi][..hi - 1 - lo] == items[lo..hi - 1];
    }
  }

  /** One position; the dictionary comprehension of __getitem__. */
  function Read(f: Flat, k: nat): Option<Dict>
    requires k < |f.starts| == |f.ends|
  {
    ReadRange(f.items, f.starts[k], f.ends[k])
  }

  lemma ReadIsModel(f: Flat, k: nat)
    requires Ordered(f) && k < |f.starts|
    ensures Read(f, k) == Some(Model(f)[k])
  {
    ReadInside(f.items, f.starts[k], f.ends[k]);
  }

  // ----- Growing -----

  function AppendFlat(f: Flat, more: seq<Item>): Flat {
    Flat(f.starts + [|f.items|], f.ends + [|f.items| + |more|], f.items + more)
  }

  lemma AppendIsModel(f: Flat, more: seq<Item>)
    requires Ordered(f)
    ensures Ordered(AppendFlat(f, more)) && Model(AppendFlat(f, more)) == Model(f) + [ToMap(more)]
  {
    hide ToMap;
    var g := AppendFlat(f, more);
    forall k | 0 <= k < |f.starts| ensures g.items[g.starts[k]..g.ends[k]] == f.items[f.starts[k]..f.ends[k]] { }
    assert g.items[|f.items|..|f.items| + |more|] == more;
  }

  // ----- Slicing -----

  function Pick(s: seq<int>, ps: seq<nat>, less: int): (r: seq<int>)
    requires forall k :: 0 <= k < |ps| ==> ps[k] < |s|
    ensures |r| == |ps|
  {
    seq(|ps|, k requires 0 <= k < |ps| => s[ps[k]] - less)
  }

  /** items[lo:hi] as Python cuts it, for lo and hi inside the list: empty if hi < lo. */
  function CutItems(items: seq<Item>, lo: int, hi: int): seq<Item> {
    if 0 <= lo <= hi <= |items| then items[lo..hi] else []
  }

  /** The slice that selects the positions ps; None is the IndexError on an empty one. */
  function SliceFlat(f: Flat, ps: seq<nat>): Option<Flat>
    requires |f.starts| == |f.ends| && forall k :: 0 <= k < |ps| ==> ps[k] < |f.starts|
  {
    if ps == [] then None
    else
      var min, max := f.starts[ps[0]], f.ends[ps[|ps| - 1]];
      Some(Flat(Pick(f.starts, ps, min), Pick(f.ends, ps, min), CutItems(f.items, min, max)))
  }

  ghost predicate Increasing(ps: seq<nat>) { forall j, k :: 0 <= j < k < |ps| ==> ps[j] < ps[k] }

  ghost predicate Decreasing(ps: seq<nat>) { forall j, k :: 0 <= j < k < |ps| ==> ps[j] > ps[k] }

  /** A slice with a positive step reads as the list's own slice, and can be read and sliced
      again. */
  lemma SliceIsModel(f: Flat, ps: seq<nat>)
    requires Ordered(f) && ps != [] && Increasing(ps) && forall k :: 0 <= k < |ps| ==> ps[k] < |f.starts|
    ensures
      var g := SliceFlat(f, ps).value;
      Ordered(g) && |Model(g)| == |ps| && forall k :: 0 <= k < |ps| ==> Model(g)[k] == Model(f)[ps[k]]
  {
    hide ToMap, Increasing;
    var g := SliceFlat(f, ps).value;
    var min, max := f.starts[ps[0]], f.ends[ps[|ps| - 1]];
    forall k | 0 <= k < |ps| ensures min <= f.starts[ps[k]] <= f.ends[ps[k]] <= max {
      InsideSpan(f, ps, k);
    }
    assert |g.items| == max - min;
    SliceOrdered(f, ps);
    forall k | 0 <= k < |ps| ensures g.items[g.starts[k]..g.ends[k]] == f.items[f.starts[ps[k]]..f.ends[ps[k]]] {
      CutOfCut(f.items, min, max, f.starts[ps[k]], f.ends[ps[k]]);
    }
  }

  lemma CutOfCut(items: seq<Item>, min: int, max: int, lo: int, hi: int)
    requires 0 <= min <= lo <= hi <= max <= |items|
    ensures items[min..max][lo - min..hi - min] == items[lo..hi]
  {
    var a, b := items[min..max][lo - min..hi - min], items[lo..hi];
    forall i | 0 <= i < hi - lo ensures a[i] == b[i] {
      assert a[i] == items[min..max][lo - min + i] == items[lo + i];
    }
  }

  lemma SliceOrdered(f: Flat, ps: seq<nat>)
    requires Ordered(f) && ps != [] && Increasing(ps) && forall k :: 0 <= k < |ps| ==> ps[k] < |f.starts|
    ensures Ordered(SliceFlat(f, ps).value)
  {
    var g := SliceFlat(f, ps).value;
    forall k | 0 <= k < |ps| ensures 0 <= g.starts[k] <= g.ends[k] <= |g.items| {
      InsideSpan(f, ps, 0);
      InsideSpan(f, ps, k);
    }
    forall j, k | 0 <= j < k < |ps| ensures g.ends[j] <= g.starts[k] {
      assert ps[j] < ps[k];
    }
  }

  lemma InsideSpan(f: Flat, ps: seq<nat>, k: nat)
    requires Ordered(f) && Increasing(ps) && k < |ps| && forall k :: 0 <= k < |ps| ==> ps[k] < |f.starts|
    ensures f.starts[ps[0]] <= f.starts[ps[k]] <= f.ends[ps[k]] <= f.ends[ps[|ps| - 1]]
  {
    if k > 0 {
      assert ps[0] < ps[k];
    }
    if k < |ps| - 1 {
      assert ps[k] < ps[|ps| - 1];
    }
  }

  /** A slice with a negative step reads as the list's own slice only if it selects a single
      position or nothing but empty ones. */
  lemma BackwardSliceIff(f: Flat, ps: seq<nat>)
    requires Ordered(f) && ps != [] && Decreasing(ps) && forall k :: 0 <= k < |ps| ==> ps[k] < |f.starts|
    ensures
      var g := SliceFlat(f, ps).value;
      (forall k :: 0 <= k < |ps| ==> Read(g, k) == Some(Model(f)[ps[k]])) <==>
      |ps| == 1 || forall k :: 0 <= k < |ps| ==> f.starts[ps[k]] == f.ends[ps[k]]
  {
    var g := SliceFlat(f, ps).value;
    if |ps| == 1 {
      SliceIsModel(f, ps);
      ReadIsModel(g, 0);
    } else {
      NothingCut(f, ps);
      forall k | 0 <= k < |ps|
        ensures Read(g, k) == Some(Model(f)[ps[k]]) <==> f.starts[ps[k]] == f.ends[ps[k]]
      {
        ReadNothing(g.starts[k], g.ends[k]);
        assert f.starts[ps[k]] == f.ends[ps[k]] ==> f.items[f.starts[ps[k]]..f.ends[ps[k]]] == [];
      }
    }
  }

  lemma NothingCut(f: Flat, ps: seq<nat>)
    requires Ordered(f) && |ps| > 1 && Decreasing(ps) && forall k :: 0 <= k < |ps| ==> ps[k] < |f.starts|
    ensures SliceFlat(f, ps).value.items == []
  {
    assert ps[|ps| - 1] < ps[0];
    assert f.ends[ps[|ps| - 1]] <= f.starts[ps[0]];
  }

  lemma ReadNothing(lo: int, hi: int)
    ensures ReadRange([], lo, hi) == if lo >= hi then Some(map[]) else None
  {
  }

  /** Two positions read backwards already fail. */
  lemma BackwardExample()
    ensures
      var x := Logprob(0.0, None, None);
      var f := Flat([0, 1], [1, 2], [Item(5, x), Item(6, x)]);
      Ordered(f) && Read(SliceFlat(f, [1, 0]).value, 0) == None
  {
    var x := Logprob(0.0, None, None);
    var f := Flat([0, 1], [1, 2], [Item(5, x), Item(6, x)]);
    NothingCut(f, [1, 0]);
    ReadNothing(0, 1);
  }

  /** A bound of a slice of n elements, as Python brings it into range: missing bounds
      default, negative ones count from the end, and what is outside is clamped. */
  function Bound(n: nat, b: Option<int>, step: int, default: int): (r: int)
    requires step != 0 && -1 <= default <= n && (if step > 0 then default >= 0 else default < n)
    ensures -1 <= r <= n && (if step > 0 then r >= 0 else r < n)
  {
    match b
    case None => default
    case Some(i) =>
      var j := if i < 0 then i + n else i;
      if step > 0 then (if j < 0 then 0 else if j > n then n else j)
      else (if j < -1 then -1 else if j > n - 1 then n - 1 else j)
  }

  /** The positions that start:stop:step selects. */
  function Selected(n: nat, start: Option<int>, stop: Option<int>, step: int): (ps: seq<nat>)
    requires step != 0
    ensures forall k :: 0 <= k < |ps| ==> ps[k] < n
    ensures if step > 0 then Increasing(ps) else Decreasing(ps)
  {
    if step > 0 then Positions(n, Bound(n, start, step, 0), Bound(n, stop, step, n), step)
    else Positions(n, Bound(n, start, step, n - 1), Bound(n, stop, step, -1), step)
  }

  /** The positions of lo:hi:step, with the bounds already in range. */
  function Positions(n: nat, lo: int, hi: int, step: int): (ps: seq<nat>)
    requires step != 0 && -1 <= lo <= n && -1 <= hi <= n && (if step > 0 then lo >= 0 && hi >= 0 else lo < n && hi < n)
    ensures forall k :: 0 <= k < |ps| ==> ps[k] < n
    ensures forall k :: 0 <= k < |ps| ==> if step > 0 then lo <= ps[k] else ps[k] <= lo
    ensures if step > 0 then Increasing(ps) else Decreasing(ps)
    decreases if step > 0 then n - lo else lo
  {
    if (step > 0 && lo >= hi) || (step < 0 && lo <= hi) then []
    else
      var next := lo + step;
      [lo] + if next > n || next < -1 then [] else Positions(n, next, hi, step)
  }

  /** The multiples of the step from lo on, as long as they do not reach hi. */
  lemma {:induction false} PositionsAre(n: nat, lo: int, hi: int, step: int, k: nat)
    requires step != 0 && -1 <= lo <= n && -1 <= hi <= n && (if step > 0 then lo >= 0 && hi >= 0 else lo < n && hi < n)
    ensures
      var ps := Positions(n, lo, hi, step);
      && (k < |ps| ==> ps[k] == lo + k * step && if step > 0 then ps[k] < hi else ps[k] > hi)
      && (k >= |ps| ==> if step > 0 then lo + k * step >= hi else lo + k * step <= hi)
    decreases k
  {
    hide Increasing, Decreasing;
    Further(k, step);
    if k > 0 && -1 <= lo + step <= n && (if step > 0 then lo < hi else hi < lo) {
      PositionsAre(n, lo + step, hi, step, k - 1);
    }
  }

  lemma Further(k: nat, step: int)
    ensures if step > 0 then k * step >= k else k * step <= 0
    ensures k > 0 ==> k * step == (k - 1) * step + step
    ensures k > 0 ==> if step > 0 then k * step >= step else k * step <= step
  {
    if k > 0 {
      Further(k - 1, step);
    }
  }

  // ----- The container -----

  /** Zipping stops at the shortest list. */
  function Zip(tokens: seq<int>, logprobs: seq<real>, ranks: seq<Option<int>>,
               decoded: seq<Option<string>>): (r: seq<Item>)
    ensures |r| <= |tokens|
  {
    if tokens == [] || logprobs == [] || ranks == [] || decoded == [] then []
    else
      [Item(tokens[0], Logprob(logprobs[0], ranks[0], decoded[0]))] +
      Zip(tokens[1..], logprobs[1..], ranks[1..], decoded[1..])
  }

  /** The four parallel lists as one. */
  function Items(ts: seq<int>, ls: seq<real>, rs: seq<Option<int>>, ds: seq<Option<string>>): (r: seq<Item>)
    requires |ts| == |ls| == |rs| == |ds|
    ensures |r| == |ts|
  {
    seq(|ts|, i requires 0 <= i < |ts| => Item(ts[i], Logprob(ls[i], rs[i], ds[i])))
  }

  lemma ItemsCut(ts: seq<int>, ls: seq<real>, rs: seq<Option<int>>, ds: seq<Option<string>>, lo: nat, hi: nat)
    requires |ts| == |ls| == |rs| == |ds| && lo <= hi <= |ts|
    ensures Items(ts[lo..hi], ls[lo..hi], rs[lo..hi], ds[lo..hi]) == Items(ts, ls, rs, ds)[lo..hi]
  {
  }

  class Container {
    var starts: seq<int>
    var ends: seq<int>
    var tokens: seq<int>
    var logprobs: seq<real>
    var ranks: seq<Option<int>>
    var decoded: seq<Option<string>>

    ghost predicate Parallel()
      reads this
    {
      |tokens| == |logprobs| == |ranks| == |decoded|
    }

    function View(): Flat
      requires Parallel()
      reads this
    {
      Flat(starts, ends, Items(tokens, logprobs, ranks, decoded))
    }

    ghost predicate Valid()
      reads this
    {
      Parallel() && Ordered(View())
    }

    constructor ()
      ensures Valid() && View() == Flat([], [], []) && Model(View()) == []
    {
      starts, ends, tokens, logprobs, ranks, decoded := [], [], [], [], [], [];
    }

    constructor Of(ss: seq<int>, es: seq<int>, ts: seq<int>, ls: seq<real>, rs: seq<Option<int>>,
                   ds: seq<Option<string>>)
      requires |ts| == |ls| == |rs| == |ds|
      ensures Parallel() && View() == Flat(ss, es, Items(ts, ls, rs, ds))
    {
      starts, ends, tokens, logprobs, ranks, decoded := ss, es, ts, ls, rs, ds;
    }

    method Push(x: Item)
      requires Parallel()
      modifies this`tokens, this`logprobs, this`ranks, this`decoded
      ensures Parallel() && View() == old(View()).(items := old(View()).items + [x])
    {
      tokens, logprobs := tokens + [x.token], logprobs + [x.logprob.logprob];
      ranks, decoded := ranks + [x.logprob.rank], decoded + [x.logprob.decoded];
    }

    /** Adds a position: the items of a dictionary, or nothing for None. */
    method Append(position: Option<seq<Item>>)
      requires Valid()
      modifies this
      ensures Valid() && Model(View()) == old(Model(View())) + [if position.None? then map[] else ToMap(position.value)]
    {
      hide Ordered, Model;
      ghost var f := View();
      var items := if position.None? then [] else position.value;
      AppendIsModel(f, items);
      starts := starts + [|logprobs|];
      for i := 0 to |items|
        invariant Parallel() && starts == f.starts + [|f.items|] && ends == f.ends &&
                  View().items == f.items + items[..i]
      {
        Push(items[i]);
        assert items[..i + 1] == items[..i] + [items[i]];
      }
      assert items[..|items|] == items;
      assert |logprobs| == |View().items|;
      ends := ends + [|logprobs|];
      assert View() == AppendFlat(f, items);
    }

    /** Adds a position from parallel lists without building the dictionary. */
    method AppendFast(ts: seq<int>, ls: seq<real>, rs: seq<Option<int>>, ds: seq<Option<string>>)
      requires Valid()
      modifies this
      ensures Valid() && Model(View()) == old(Model(View())) + [ToMap(Zip(ts, ls, rs, ds))]
    {
      hide Ordered, Model, Zip;
      ghost var f := View();
      ghost var items := Zip(ts, ls, rs, ds);
      AppendIsModel(f, items);
      starts := starts + [|logprobs|];
      var i := 0;
      ZipFrom(ts, ls, rs, ds, 0);
      while i < |ts| && i < |ls| && i < |rs| && i < |ds|
        invariant i <= |items| && Parallel() && starts == f.starts + [|f.items|] && ends == f.ends
        invariant View().items == f.items + items[..i]
      {
        ZipFrom(ts, ls, rs, ds, i);
        Push(Item(ts[i], Logprob(ls[i], rs[i], ds[i])));
        assert items[..i + 1] == items[..i] + [items[i]];
        i := i + 1;
      }
      ZipFrom(ts, ls, rs, ds, i);
      assert items[..|items|] == items;
      assert |logprobs| == |View().items|;
      ends := ends + [|logprobs|];
      assert View() == AppendFlat(f, items);
    }

    method Extend(positions: seq<Option<seq<Item>>>)
      requires Valid()
      modifies this
      ensures Valid() && Model(View()) == old(Model(View())) + Dicts(positions)
    {
      hide Ordered, Model;
      ghost var m := Model(View());
      for k := 0 to |positions|
        invariant Valid() && Model(View()) == m + Dicts(positions[..k])
      {
        Append(positions[k]);
        assert positions[..k + 1] == positions[..k] + [positions[k]];
      }
      assert positions[..|positions|] == positions;
    }

    function Length(): (n: nat)
      requires Valid()
      reads this
      ensures n == |Model(View())|
    {
      |starts|
    }

    /** One position; a negative index counts from the end, and any other is an error. */
    method Get(index: int) returns (r: Option<Dict>)
      requires Valid()
      ensures r.Some? <==> -|Model(View())| <= index < |Model(View())|
      ensures r.Some? ==> r.value == Model(View())[if index < 0 then |Model(View())| + index else index]
    {
      if !(-|starts| <= index < |starts|) {
        return None;
      }
      var k := if index < 0 then |starts| + index else index;
      ReadIsModel(View(), k);
      r := Read(View(), k);
    }

    /** Yields every position in order. */
    method Iterate() returns (all: seq<Dict>)
      requires Valid()
      ensures all == Model(View())
    {
      all := [];
      for k := 0 to |starts|
        invariant all == Model(View())[..k]
      {
        var r := Get(k);
        all := all + [r.value];
      }
      assert Model(View())[..|starts|] == Model(View());
    }

    /** A slice; None is the error on a step of zero or an empty selection. */
    method Slice(start: Option<int>, stop: Option<int>, step: int) returns (r: Option<Container>)
      requires Valid()
      ensures r.None? <==> step == 0 || Selected(|starts|, start, stop, step) == []
      ensures r.Some? ==>
                r.value.Parallel() && Some(r.value.View()) == SliceFlat(View(), Selected(|starts|, start, stop, step))
      ensures r.Some? && step > 0 ==>
                r.value.Valid() && Model(r.value.View()) == Chosen(Model(View()), Selected(|starts|, start, stop, step))
    {
      hide Selected, Model, Items, Increasing, Decreasing, ToMap;
      if step == 0 {
        return None;
      }
      var ps := Selected(|starts|, start, stop, step);
      if ps == [] {
        return None;
      }
      var min, max := starts[ps[0]], ends[ps[|ps| - 1]];
      ghost var f := View();
      var from, to := min, if min <= max then max else min;
      ItemsCut(tokens, logprobs, ranks, decoded, from, to);
      var c := new Container.Of(Pick(starts, ps, min), Pick(ends, ps, min),
                                tokens[from..to], logprobs[from..to], ranks[from..to], decoded[from..to]);
      assert Some(c.View()) == SliceFlat(f, ps);
      if step > 0 {
        SliceIsModel(f, ps);
        SameDicts(f, c.View(), ps);
      }
      r := Some(c);
    }

    /** append_logprobs_for_next_position on a container: the sampled token's rank, then the
        ranks of the top tokens. */
    method AppendForNextPosition(ts: seq<int>, ls: seq<real>, ds: seq<Option<string>>, rank: int, num: int)
      requires Valid()
      modifies this
      ensures Valid() && Model(View()) == AppendedList(old(Model(View())), ts, ls, ds, rank, num)
      ensures |Model(View())| == old(|Model(View())|) + 1 && Model(View())[..old(|Model(View())|)] == old(Model(View()))
      ensures Ranked(Model(View())[old(|Model(View())|)], ts, ls, ds, rank, num)
    {
      hide Model, Ranked, ToMap, Zip, RanksFor, TopCount;
      LastIsRanked(ts, ls, ds, rank, num);
      AppendFast(ts, ls, RanksFor(rank, TopCount(num, |ls|)), ds);
    }
  }

  lemma SameDicts(f: Flat, g: Flat, ps: seq<nat>)
    requires Ordered(f) && Ordered(g) && |Model(g)| == |ps| && (forall k :: 0 <= k < |ps| ==> ps[k] < |f.starts|)
    requires forall k :: 0 <= k < |ps| ==> Model(g)[k] == Model(f)[ps[k]]
    ensures Model(g) == Chosen(Model(f), ps)
  {
    hide Model;
  }

  ghost function Chosen(m: seq<Dict>, ps: seq<nat>): (r: seq<Dict>)
    requires forall k :: 0 <= k < |ps| ==> ps[k] < |m|
  {
    seq(|ps|, k requires 0 <= k < |ps| => m[ps[k]])
  }

  function Dicts(positions: seq<Option<seq<Item>>>): (r: seq<Dict>)
    ensures |r| == |positions|
  {
    seq(|positions|, k requires 0 <= k < |positions| => if positions[k].None? then map[] else ToMap(positions[k].value))
  }

  /** How many top ranks follow the sampled one: all for -1, none for other negative numbers. */
  function TopCount(num: int, all: nat): nat { if num == -1 then all else if num < 0 then 0 else num }

  function RanksFor(rank: int, num: nat): seq<Option<int>> {
    [Some(rank)] + seq(num, k => Some(k + 1))
  }

  /** append_logprobs_for_next_position on a plain list: one dictionary comprehension. */
  function AppendedList(list: seq<Dict>, ts: seq<int>, ls: seq<real>, ds: seq<Option<string>>, rank: int,
                        num: int): seq<Dict> {
    list + [ToMap(Zip(ts, ls, RanksFor(rank, TopCount(num, |ls|)), ds))]
  }

  lemma {:induction false} ZipFrom(ts: seq<int>, ls: seq<real>, rs: seq<Option<int>>, ds: seq<Option<string>>, i: nat)
    ensures i < |ts| && i < |ls| && i < |rs| && i < |ds| ==>
              i < |Zip(ts, ls, rs, ds)| && Zip(ts, ls, rs, ds)[i] == Item(ts[i], Logprob(ls[i], rs[i], ds[i]))
    ensures i >= |ts| || i >= |ls| || i >= |rs| || i >= |ds| ==> |Zip(ts, ls, rs, ds)| <= i
  {
    if i > 0 && ts != [] && ls != [] && rs != [] && ds != [] {
      ZipFrom(ts[1..], ls[1..], rs[1..], ds[1..], i - 1);
    }
  }

  // ----- Which token gets which rank -----

  /** Entry k is used: the lists reach that far, and so does the number of top logprobs. */
  ghost predicate Used(ts: seq<int>, ls: seq<real>, ds: seq<Option<string>>, num: int, k: nat) {
    k < |ts| && k < |ls| && k < |ds| && (k == 0 || num == -1 || k <= num)
  }

  /** No later entry that is used names the same token. */
  ghost predicate LastNamed(ts: seq<int>, ls: seq<real>, ds: seq<Option<string>>, num: int, k: nat)
    requires Used(ts, ls, ds, num, k)
  {
    forall j: nat :: k < j && Used(ts, ls, ds, num, j) ==> ts[j] != ts[k]
  }

  /** The tokens of the entries used, each with the data of the last entry that names it; the
      first entry, the sampled token, has the rank given, and entry k after it rank k. */
  ghost predicate Ranked(m: Dict, ts: seq<int>, ls: seq<real>, ds: seq<Option<string>>, rank: int, num: int) {
    && (forall t :: t in m ==> exists k: nat :: Used(ts, ls, ds, num, k) && ts[k] == t)
    && (forall k: nat :: Used(ts, ls, ds, num, k) ==> ts[k] in m)
    && (forall k: nat :: Used(ts, ls, ds, num, k) && LastNamed(ts, ls, ds, num, k) ==>
          ts[k] in m && m[ts[k]] == Logprob(ls[k], Some(if k == 0 then rank else k), ds[k]))
  }

  lemma LastIsRanked(ts: seq<int>, ls: seq<real>, ds: seq<Option<string>>, rank: int, num: int)
    ensures Ranked(ToMap(Zip(ts, ls, RanksFor(rank, TopCount(num, |ls|)), ds)), ts, ls, ds, rank, num)
  {
    hide ToMap, Zip;
    var rs := RanksFor(rank, TopCount(num, |ls|));
    var items := Zip(ts, ls, rs, ds);
    forall k: nat
      ensures k < |items| <==> Used(ts, ls, ds, num, k)
      ensures k < |items| ==> items[k] == Item(ts[k], Logprob(ls[k], Some(if k == 0 then rank else k), ds[k]))
    {
      ZipFrom(ts, ls, rs, ds, k);
    }
    forall t ensures t in ToMap(items) <==> exists k: nat :: Used(ts, ls, ds, num, k) && ts[k] == t {
      ToMapKeys(items, t);
      if k :| 0 <= k < |items| && items[k].token == t {
        assert Used(ts, ls, ds, num, k) && ts[k] == t;
      }
      if k: nat :| Used(ts, ls, ds, num, k) && ts[k] == t {
        assert items[k].token == t;
      }
    }
    forall k: nat | Used(ts, ls, ds, num, k) && LastNamed(ts, ls, ds, num, k)
      ensures ts[k] in ToMap(items) && ToMap(items)[ts[k]] == items[k].logprob
    {
      ToMapLast(items, k);
    }
  }

  lemma {:induction false} ToMapKeys(items: seq<Item>, t: int)
    ensures t in ToMap(items) <==> exists k :: 0 <= k < |items| && items[k].token == t
  {
    if items != [] {
      var n := |items| - 1;
      ToMapKeys(items[..n], t);
      if k :| 0 <= k < n && items[k].token == t {
        assert items[..n][k].token == t;
      }
      if k :| 0 <= k < |items[..n]| && items[..n][k].token == t {
        assert items[k].token == t;
      }
    }
  }

  /** Of the items with a token the last one counts. */
  lemma {:induction false} ToMapLast(items: seq<Item>, k: nat)
    requires k < |items| && forall j :: k < j < |items| ==> items[j].token != items[k].token
    ensures items[k].token in ToMap(items) && ToMap(items)[items[k].token] == items[k].logprob
  {
    if k < |items| - 1 {
      ToMapLast(items[..|items| - 1], k);
    }
  }

  /** The sampled token is listed with its own rank exactly when no other entry used names it,
      or the last that does stands at that rank. */
  lemma SampledRankIff(m: Dict, ts: seq<int>, ls: seq<real>, ds: seq<Option<string>>, rank: int, num: int, last: nat)
    requires Ranked(m, ts, ls, ds, rank, num) && Used(ts, ls, ds, num, 0)
    requires Used(ts, ls, ds, num, last) && LastNamed(ts, ls, ds, num, last) && ts[last] == ts[0]
    ensures ts[0] in m && (m[ts[0]].rank == Some(rank) <==> last == 0 || last == rank)
  {
    assert ts[last] in m;
  }

  // ----- Slice bounds -----

  /** Bounds inside count from the start, negative ones from the end, and the rest is clamped
      to the first or the last place where a slice in that direction can begin or end. */
  lemma BoundIs(n: nat, i: int, step: int, default: int)
    requires step != 0 && -1 <= default <= n && (if step > 0 then default >= 0 else default < n)
    ensures 0 <= i < n ==> Bound(n, Some(i), step, default) == i
    ensures 0 < i <= n ==> Bound(n, Some(-i), step, default) == n - i
    ensures i >= n ==> Bound(n, Some(i), step, default) == if step > 0 then n else n - 1
    ensures i + n < 0 ==> Bound(n, Some(i), step, default) == if step > 0 then 0 else -1
    ensures Bound(n, None, step, default) == default
  {
  }

  /** A slice without bounds selects every position, forwards or backwards. */
  lemma WholeSlice(n: nat, k: nat)
    requires k < n
    ensures |Selected(n, None, None, 1)| == n == |Selected(n, None, None, -1)|
    ensures Selected(n, None, None, 1)[k] == k && Selected(n, None, None, -1)[k] == n - 1 - k
  {
    hide Positions;
    PositionsAre(n, 0, n, 1, k);
    PositionsAre(n, 0, n, 1, n);
    PositionsAre(n, n - 1, -1, -1, k);
    PositionsAre(n, n - 1, -1, -1, n);
    PositionsAre(n, 0, n, 1, n - 1);
    PositionsAre(n, n - 1, -1, -1, n - 1);
  }
}
