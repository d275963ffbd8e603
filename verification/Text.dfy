/** Joining, splitting and decimal numbers, as Python's str.join and str give them. */
module Text {

  predicate Lacks(s: string, c: char) { forall k :: 0 <= k < |s| ==> s[k] != c }

  predicate AllLack(items: seq<string>, c: char) { forall k :: 0 <= k < |items| ==> Lacks(items[k], c) }

  /** The items with the separator between them. */
  function Join(sep: char, items: seq<string>): string {
    if items == [] then ""
    else if |items| == 1 then items[0]
    else items[0] + [sep] + Join(sep, items[1..])
  }

  /** The position of the first c, or the length. */
  function First(s: string, c: char): (k: nat)
    ensures k <= |s| && Lacks(s[..k], c) && (k < |s| ==> s[k] == c)
  {
    if s == "" || s[0] == c then 0 else 1 + First(s[1..], c)
  }

  function Split(sep: char, s: string): (r: seq<string>)
    ensures r != []
    decreases |s|
  {
    var k := First(s, sep);
    if k == |s| then [s] else [s[..k]] + Split(sep, s[k + 1..])
  }

  lemma {:induction false} FirstIs(x: string, c: char, y: string)
    requires Lacks(x, c)
    ensures First(x + [c] + y, c) == |x| && First(x, c) == |x|
  {
    if x != "" {
      assert (x + [c] + y)[1..] == x[1..] + [c] + y;
      FirstIs(x[1..], c, y);
    }
  }

  /** Splitting undoes joining. */
  lemma {:induction false} SplitJoin(sep: char, items: seq<string>)
    requires items != [] && AllLack(items, sep)
    ensures Split(sep, Join(sep, items)) == items
  {
    FirstIs(items[0], sep, "");
    if |items| > 1 {
      var rest := Join(sep, items[1..]);
      var all := items[0] + [sep] + rest;
      FirstIs(items[0], sep, rest);
      assert all[..|items[0]|] == items[0] && all[|items[0]| + 1..] == rest;
      SplitJoin(sep, items[1..]);
    }
  }

  lemma {:induction false} JoinLacks(sep: char, items: seq<string>, c: char)
    requires AllLack(items, c) && c != sep
    ensures Lacks(Join(sep, items), c)
  {
    if |items| > 1 {
      JoinLacks(sep, items[1..], c);
    }
  }

  // ----- Decimal numbers -----

  function Digit(d: nat): char requires d < 10 { ('0' as int + d) as char }

  function Decimal(n: nat): (s: string)
    ensures s != "" && forall k :: 0 <= k < |s| ==> '0' <= s[k] <= '9'
  {
    if n < 10 then [Digit(n)] else Decimal(n / 10) + [Digit(n % 10)]
  }

  function Value(s: string): nat
    requires forall k :: 0 <= k < |s| ==> '0' <= s[k] <= '9'
  {
    if s == "" then 0 else Value(s[..|s| - 1]) * 10 + (s[|s| - 1] as int - '0' as int)
  }

  lemma {:induction false} ValueDecimal(n: nat)
    ensures Value(Decimal(n)) == n
  {
    if n >= 10 {
      ValueDecimal(n / 10);
      var s := Decimal(n);
      assert s[..|s| - 1] == Decimal(n / 10);
    }
  }

  /** Python's str of an integer. */
  function Number(n: int): string { if n < 0 then "-" + Decimal(-n) else Decimal(n) }
}
