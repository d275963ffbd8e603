/** Index lists as text (model_inspection.py): "0-2, 4-6". */
module IndexRanges {
  import opened Options
  import opened Text

  datatype Span = Span(first: int, last: int)

  ghost predicate Ascending(s: seq<int>) { forall k :: 0 <= k < |s| - 1 ==> s[k] <= s[k + 1] }

  function Insert(s: seq<int>, x: int): (r: seq<int>)
    requires Ascending(s)
    ensures Ascending(r) && multiset(r) == multiset(s) + multiset{x}
    ensures r != [] && r[0] == if s == [] || x <= s[0] then x else s[0]
  {
    if s == [] || x <= s[0] then [x] + s
    else
      assert s == [s[0]] + s[1..];
      [s[0]] + Insert(s[1..], x)
  }

  function Sorted(s: seq<int>): (r: seq<int>)
    ensures Ascending(r) && multiset(r) == multiset(s) && |r| == |s|
  {
    if s == [] then []
    else
      assert s == s[..|s| - 1] + [s[|s| - 1]];
      var r := Insert(Sorted(s[..|s| - 1]), s[|s| - 1]);
      assert |multiset(r)| == |multiset(s)|;
      r
  }

  /** The indices of one range. */
  ghost function Indices(s: Span): seq<int> {
    if s.last < s.first then [] else seq(s.last - s.first + 1, k => s.first + k)
  }

  ghost function Expand(spans: seq<Span>): seq<int> {
    if spans == [] then [] else Expand(spans[..|spans| - 1]) + Indices(spans[|spans| - 1])
  }

  /** No range ends right before the next begins, and none is empty. */
  ghost predicate Maximal(spans: seq<Span>) {
    && (forall k :: 0 <= k < |spans| ==> spans[k].first <= spans[k].last)
    && forall k :: 0 <= k < |spans| - 1 ==> spans[k].last + 1 != spans[k + 1].first
  }

  function SpanText(s: Span): string {
    if s.first == s.last then Number(s.first) else Number(s.first) + "-" + Number(s.last)
  }

  /** Items joined by a comma and a blank. */
  function Listed(items: seq<string>): string { Join(',', Spaced(items)) }

  function Spaced(items: seq<string>): (r: seq<string>)
    ensures |r| == |items|
  {
    seq(|items|, k requires 0 <= k < |items| => if k == 0 then items[0] else " " + items[k])
  }

  function Texts(spans: seq<Span>): (r: seq<string>)
    ensures |r| == |spans|
  {
    seq(|spans|, k requires 0 <= k < |spans| => SpanText(spans[k]))
  }

  /** An index extends the last range or starts a new one. */
  function WithIndex(r: seq<Span>, x: int): (q: seq<Span>)
    requires r != []
    ensures q != [] && q[|q| - 1].last == x
  {
    var m := |r| - 1;
    if x == r[m].last + 1 then r[..m] + [Span(r[m].first, x)] else r + [Span(x, x)]
  }

  /** The ranges of an ordered list. */
  function Spans(all: seq<int>): (r: seq<Span>)
    requires all != []
    ensures r != [] && r[|r| - 1].last == all[|all| - 1]
  {
    var n := |all| - 1;
    if n == 0 then [Span(all[0], all[0])] else WithIndex(Spans(all[..n]), all[n])
  }

  lemma WithIndexExpands(r: seq<Span>, x: int)
    requires r != [] && Maximal(r)
    ensures Expand(WithIndex(r, x)) == Expand(r) + [x]
  {
    hide Expand, Indices;
    var m := |r| - 1;
    assert r == r[..m] + [r[m]];
    Added(r[..m], r[m]);
    if x == r[m].last + 1 {
      Added(r[..m], Span(r[m].first, x));
      Longer(r[m]);
    } else {
      Added(r, Span(x, x));
      Alone(x);
    }
  }

  lemma WithIndexMaximal(r: seq<Span>, x: int)
    requires r != [] && Maximal(r)
    ensures Maximal(WithIndex(r, x))
  {
    var m := |r| - 1;
    if x == r[m].last + 1 {
      assert r == r[..m] + [r[m]];
      StillMaximal(r[..m], r[m].first, r[m].last);
    }
  }

  /** Every bound of a range comes from the list. */
  ghost predicate From(r: seq<Span>, all: seq<int>) {
    forall k :: 0 <= k < |r| ==> r[k].first in all && r[k].last in all
  }

  lemma WithIndexFrom(r: seq<Span>, x: int, all: seq<int>)
    requires r != [] && From(r, all)
    ensures From(WithIndex(r, x), all + [x])
  {
  }

  /** The ranges are maximal and expand to the list they were made from. */
  lemma {:induction false} SpansAre(all: seq<int>)
    requires all != []
    ensures Maximal(Spans(all)) && Expand(Spans(all)) == all && From(Spans(all), all)
  {
    hide Expand, Indices, Maximal, WithIndex;
    var n := |all| - 1;
    if n == 0 {
      Single(all[0]);
    } else {
      SpansAre(all[..n]);
      assert all == all[..n] + [all[n]];
      WithIndexExpands(Spans(all[..n]), all[n]);
      WithIndexMaximal(Spans(all[..n]), all[n]);
      WithIndexFrom(Spans(all[..n]), all[n], all[..n]);
    }
  }

  lemma Single(x: int)
    ensures Maximal([Span(x, x)]) && Expand([Span(x, x)]) == [x]
  {
    Added([], Span(x, x));
    Alone(x);
    assert [] + [Span(x, x)] == [Span(x, x)];
  }

  /** Formats a list of indices; None is the error on an empty list. */
  method FormatIndexRanges(indices: seq<int>) returns (text: Option<string>)
    ensures text == if indices == [] then None else Some(RangesText(indices))
  {
    hide Sorted, Listed, SpanText, Texts;
    var all := Sorted(indices);
    if all == [] {
      return None;
    }
    var ranges: seq<string> := [];
    ghost var closed: seq<Span> := [];
    var first, last := all[0], all[0];
    assert all[..1] == [all[0]];
    NothingYet();
    for i := 1 to |all|
      invariant closed + [Span(first, last)] == Spans(all[..i]) && ranges == Texts(closed)
    {
      var index := all[i];
      assert all[..i + 1][..i] == all[..i];
      ghost var r := Spans(all[..i]);
      assert r[..|r| - 1] == closed && r[|r| - 1] == Span(first, last);
      if index == last + 1 {
        last := index;
      } else {
        Added(closed, Span(first, last));
        ranges := ranges + [SpanText(Span(first, last))];
        closed := closed + [Span(first, last)];
        first, last := index, index;
      }
    }
    Added(closed, Span(first, last));
    ranges := ranges + [SpanText(Span(first, last))];
    assert all[..|all|] == all;
    text := Some(Listed(ranges));
  }

  function RangesText(indices: seq<int>): string
    requires indices != []
  {
    Listed(Texts(Spans(Sorted(indices))))
  }

  lemma SameElements(s: seq<int>)
    ensures forall x :: x in Sorted(s) <==> x in s
  {
    forall x ensures x in Sorted(s) <==> x in s {
      assert x in Sorted(s) <==> x in multiset(Sorted(s));
      assert x in s <==> x in multiset(s);
    }
  }

  lemma NothingYet()
    ensures Expand([]) == [] && Texts([]) == []
  {
  }

  lemma Longer(s: Span)
    requires s.first <= s.last
    ensures Indices(Span(s.first, s.last + 1)) == Indices(s) + [s.last + 1]
  {
  }

  lemma Alone(x: int)
    ensures Indices(Span(x, x)) == [x]
  {
  }

  lemma StillMaximal(spans: seq<Span>, first: int, last: int)
    requires Maximal(spans + [Span(first, last)])
    ensures Maximal(spans + [Span(first, last + 1)])
  {
    var before, after := spans + [Span(first, last)], spans + [Span(first, last + 1)];
    forall k | 0 <= k < |after| - 1 ensures after[k].last + 1 != after[k + 1].first {
      assert before[k].last + 1 != before[k + 1].first;
    }
    forall k | 0 <= k < |after| ensures after[k].first <= after[k].last {
      assert before[k].first <= before[k].last;
    }
  }

  lemma Added(spans: seq<Span>, s: Span)
    ensures Expand(spans + [s]) == Expand(spans) + Indices(s)
    ensures Texts(spans + [s]) == Texts(spans) + [SpanText(s)]
  {
    assert (spans + [s])[..|spans|] == spans;
  }

  // ----- Reading the text back -----

  function Unspaced(items: seq<string>): (r: seq<string>)
    requires forall k :: 0 < k < |items| ==> items[k] != ""
    ensures |r| == |items|
  {
    seq(|items|, k requires 0 <= k < |items| => if k == 0 then items[0] else items[k][1..])
  }

  predicate Digits(s: string) { forall k :: 0 <= k < |s| ==> '0' <= s[k] <= '9' }

  /** One or two numbers around a dash. */
  ghost function ReadSpan(s: string): Option<Span> {
    var parts := Split('-', s);
    if |parts| == 1 && Digits(parts[0]) then Some(Span(Value(parts[0]), Value(parts[0])))
    else if |parts| == 2 && Digits(parts[0]) && Digits(parts[1]) then Some(Span(Value(parts[0]), Value(parts[1])))
    else None
  }

  /** The ranges a text lists. */
  ghost predicate Reads(text: string, spans: seq<Span>) {
    var items := Split(',', text);
    && (forall k :: 0 < k < |items| ==> items[k] != "" && items[k][0] == ' ')
    && |items| == |spans|
    && forall k :: 0 <= k < |spans| ==> ReadSpan(Unspaced(items)[k]) == Some(spans[k])
  }

  lemma SpanTextLacks(s: Span)
    requires 0 <= s.first && 0 <= s.last
    ensures Lacks(SpanText(s), ',')
  {
    hide Decimal;
  }

  lemma ReadSpanText(s: Span)
    requires 0 <= s.first <= s.last
    ensures ReadSpan(SpanText(s)) == Some(s)
  {
    hide Decimal, Value;
    ValueDecimal(s.first);
    ValueDecimal(s.last);
    var a, b := Decimal(s.first), Decimal(s.last);
    assert Lacks(a, '-') && Lacks(b, '-');
    if s.first == s.last {
      SplitJoin('-', [a]);
    } else {
      SplitJoin('-', [a, b]);
      assert Join('-', [a, b]) == a + "-" + b;
    }
  }

  /** The text determines the ranges: reading it back gives exactly those printed. */
  lemma ReadListed(spans: seq<Span>)
    requires spans != [] && forall k :: 0 <= k < |spans| ==> 0 <= spans[k].first <= spans[k].last
    ensures Reads(Listed(Texts(spans)), spans)
  {
    hide SpanText, ReadSpan, Split, Join, Spaced;
    var items := Spaced(Texts(spans));
    SpacedLacks(spans);
    SplitJoin(',', items);
    UnspacedSpaced(Texts(spans));
    forall k | 0 <= k < |spans| ensures ReadSpan(Unspaced(items)[k]) == Some(spans[k]) {
      ReadSpanText(spans[k]);
    }
  }

  lemma UnspacedSpaced(items: seq<string>)
    ensures forall k :: 0 < k < |items| ==> Spaced(items)[k] != "" && Spaced(items)[k][0] == ' '
    ensures Unspaced(Spaced(items)) == items
  {
  }

  lemma SpacedLacks(spans: seq<Span>)
    requires forall k :: 0 <= k < |spans| ==> 0 <= spans[k].first <= spans[k].last
    ensures AllLack(Spaced(Texts(spans)), ',')
  {
    hide SpanText;
    forall k | 0 <= k < |spans| ensures Lacks(Spaced(Texts(spans))[k], ',') {
      SpanTextLacks(spans[k]);
    }
  }

  /** The text of non-negative indices reads back as maximal ranges that expand to the
      sorted list, duplicates included. */
  lemma RangesRoundTrip(indices: seq<int>)
    requires indices != [] && forall k :: 0 <= k < |indices| ==> indices[k] >= 0
    ensures
      var spans := Spans(Sorted(indices));
      Reads(RangesText(indices), spans) && Maximal(spans) && Expand(spans) == Sorted(indices)
  {
    hide Reads, Listed, Sorted, Spans, Maximal, Expand, Texts;
    var spans := Spans(Sorted(indices));
    SpansAre(Sorted(indices));
    SameElements(indices);
    forall k | 0 <= k < |spans| ensures 0 <= spans[k].first <= spans[k].last {
      InOrder(spans, k);
    }
    ReadListed(spans);
  }

  lemma InOrder(spans: seq<Span>, k: nat)
    requires Maximal(spans) && k < |spans|
    ensures spans[k].first <= spans[k].last
  {
  }

  lemma SingleText(i: int)
    ensures RangesText([i]) == Number(i)
  {
    hide Number;
    assert [i][..0] == [] && Sorted([]) == [];
    assert Insert([], i) == [i];
    assert Sorted([i]) == [i] && Spans([i]) == [Span(i, i)];
    assert Texts([Span(i, i)]) == [Number(i)];
    assert Spaced([Number(i)]) == [Number(i)];
  }
}
