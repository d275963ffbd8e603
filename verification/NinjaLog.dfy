/**
  ReadTargets of tools/report_build_time_ninja.py: grouping the records of the last
  build in a ninja log by command hash.  A log may hold several builds one after the
  other; a record that cannot belong to the build read so far starts a new one.
 */
module NinjaLog {
  import opened NinjaReport

  /** A line of five tab-separated fields, with its times converted to seconds. */
  datatype Record = Record(start: real, end: real, name: string, hash: string)

  datatype Line = Malformed | Good(record: Record)

  function Records(log: seq<Line>): seq<Record> {
    if log == [] then []
    else
      var rest := Records(log[..|log| - 1]);
      var last := log[|log| - 1];
      if last.Good? then rest + [last.record] else rest
  }

  lemma {:induction false} RecordsPrefix(log: seq<Line>, i: nat)
    requires i <= |log|
    ensures Records(log[..i]) <= Records(log)
  {
    if i == |log| {
      assert log[..i] == log;
    } else {
      assert log[..|log| - 1][..i] == log[..i];
      RecordsPrefix(log[..|log| - 1], i);
    }
  }

  /** The next line either adds one record or none. */
  lemma NextLine(log: seq<Line>, i: nat)
    requires i < |log|
    ensures
      var n := |Records(log[..i])|;
      if log[i].Good?
      then n < |Records(log)| && Records(log)[n] == log[i].record && |Records(log[..i + 1])| == n + 1
      else |Records(log[..i + 1])| == n
  {
    RecordsPrefix(log, i + 1);
    assert log[..i + 1][..i] == log[..i];
    assert Records(log[..i + 1]) <= Records(log);
  }

  // ----- Which records belong to the last build -----

  predicate Clash(a: Record, b: Record) {
    a.hash == b.hash && (a.start != b.start || a.end != b.end)
  }

  /** Record n starts a new build, given that the current one began at record c. */
  predicate Restarts(recs: seq<Record>, c: nat, n: nat)
    requires c <= n < |recs|
  {
    || (n > 0 && recs[n].end < recs[n - 1].end)
    || (exists k :: c <= k < n && Clash(recs[k], recs[n]))
  }

  /** Where the build that is current after n records began. */
  function Cut(recs: seq<Record>, n: nat): (c: nat)
    requires n <= |recs|
    ensures c <= n && (n > 0 ==> c < n)
  {
    if n == 0 then 0
    else
      var c := Cut(recs, n - 1);
      if Restarts(recs, c, n - 1) then n - 1 else c
  }

  /** Records that one build can have written. */
  ghost predicate OneBuild(recs: seq<Record>, c: nat, n: nat)
    requires c <= n <= |recs|
  {
    && (forall j, k :: c <= j && j + 1 == k < n ==> recs[j].end <= recs[k].end)
    && (forall j, k :: c <= j < k < n ==> !Clash(recs[j], recs[k]))
  }

  /** The records kept are one build: their end times never decrease and equal hashes
      have equal times.  And they were cut no later than needed: the record at the cut
      could not have belonged to the build before it. */
  lemma {:induction false} CutIsOneBuild(recs: seq<Record>, n: nat)
    requires n <= |recs|
    ensures
      var c := Cut(recs, n);
      OneBuild(recs, c, n) && (c > 0 ==> !OneBuild(recs, Cut(recs, c), c + 1))
  {
    hide OneBuild, Restarts;
    if n == 0 {
      NoRecords(recs, 0);
    } else {
      CutIsOneBuild(recs, n - 1);
      var c := Cut(recs, n - 1);
      if Restarts(recs, c, n - 1) {
        NoRecords(recs, n - 1);
        RestartBreaks(recs, c, n - 1);
      } else {
        BuildGrows(recs, c, n - 1);
      }
    }
  }

  lemma NoRecords(recs: seq<Record>, n: nat)
    requires n <= |recs|
    ensures OneBuild(recs, n, n) && (n < |recs| ==> OneBuild(recs, n, n + 1))
  {
  }

  lemma BuildGrows(recs: seq<Record>, c: nat, n: nat)
    requires c <= n < |recs| && OneBuild(recs, c, n) && !Restarts(recs, c, n)
    ensures OneBuild(recs, c, n + 1)
  {
    hide Clash;
  }

  lemma RestartBreaks(recs: seq<Record>, c: nat, n: nat)
    requires c <= n < |recs| && Restarts(recs, c, n) && (n > 0 ==> c < n)
    ensures n > 0 ==> !OneBuild(recs, c, n + 1)
  {
    hide Clash;
    if n > 0 && recs[n].end < recs[n - 1].end {
      assert c <= n - 1 && n - 1 + 1 == n;
    }
  }

  // ----- The grouping -----

  /** The hashes of records c to n in order of first appearance. */
  function Seen(recs: seq<Record>, c: nat, n: nat): (s: seq<string>)
    requires c <= n <= |recs|
  {
    if c == n then []
    else
      var s := Seen(recs, c, n - 1);
      if recs[n - 1].hash in s then s else s + [recs[n - 1].hash]
  }

  /** The names recorded under a hash, in log order. */
  function Names(recs: seq<Record>, c: nat, n: nat, hash: string): seq<string>
    requires c <= n <= |recs|
  {
    if c == n then []
    else Names(recs, c, n - 1, hash) + if recs[n - 1].hash == hash then [recs[n - 1].name] else []
  }

  lemma {:induction false} SeenSound(recs: seq<Record>, c: nat, n: nat)
    requires c <= n <= |recs|
    ensures forall k :: c <= k < n ==> recs[k].hash in Seen(recs, c, n)
    ensures forall h :: h in Seen(recs, c, n) ==> exists k :: c <= k < n && recs[k].hash == h
    ensures forall j, k :: 0 <= j < k < |Seen(recs, c, n)| ==> Seen(recs, c, n)[j] != Seen(recs, c, n)[k]
    ensures forall h :: h !in Seen(recs, c, n) ==> Names(recs, c, n, h) == []
  {
    if c < n { SeenSound(recs, c, n - 1); }
  }

  /** The hashes stand in the order of the first records that carry them. */
  lemma {:induction false} SeenOrder(recs: seq<Record>, c: nat, n: nat, j: nat, k: nat) returns (a: nat, b: nat)
    requires c <= n <= |recs| && j < k < |Seen(recs, c, n)|
    ensures c <= a < b < n
    ensures FirstWith(recs, c, a, Seen(recs, c, n)[j]) && FirstWith(recs, c, b, Seen(recs, c, n)[k])
  {
    hide Names;
    SeenSound(recs, c, n - 1);
    var s := Seen(recs, c, n - 1);
    if k < |s| {
      a, b := SeenOrder(recs, c, n - 1, j, k);
    } else {
      a := SeenAt(recs, c, n - 1, j);
      b := n - 1;
    }
  }

  lemma {:induction false} SeenAt(recs: seq<Record>, c: nat, n: nat, k: nat) returns (a: nat)
    requires c <= n <= |recs| && k < |Seen(recs, c, n)|
    ensures c <= a < n && FirstWith(recs, c, a, Seen(recs, c, n)[k])
  {
    hide Names;
    SeenSound(recs, c, n - 1);
    if k < |Seen(recs, c, n - 1)| {
      a := SeenAt(recs, c, n - 1, k);
    } else {
      a := n - 1;
    }
  }

  function CountNames(recs: seq<Record>, c: nat, n: nat, hashes: seq<string>): nat
    requires c <= n <= |recs|
  {
    if hashes == [] then 0
    else |Names(recs, c, n, hashes[|hashes| - 1])| + CountNames(recs, c, n, hashes[..|hashes| - 1])
  }

  lemma {:induction false} OneMoreName(recs: seq<Record>, c: nat, n: nat, hashes: seq<string>)
    requires c < n <= |recs|
    requires forall j, k :: 0 <= j < k < |hashes| ==> hashes[j] != hashes[k]
    ensures CountNames(recs, c, n, hashes) ==
            CountNames(recs, c, n - 1, hashes) + if recs[n - 1].hash in hashes then 1 else 0
  {
    if hashes != [] {
      OneMoreName(recs, c, n, hashes[..|hashes| - 1]);
      assert hashes == hashes[..|hashes| - 1] + [hashes[|hashes| - 1]];
    }
  }

  lemma LastHash(recs: seq<Record>, c: nat, n: nat, s: seq<string>, h: string)
    requires c < n <= |recs| && recs[n - 1].hash == h && Names(recs, c, n - 1, h) == []
    ensures CountNames(recs, c, n, s + [h]) == 1 + CountNames(recs, c, n, s)
  {
    assert (s + [h])[..|s|] == s;
  }

  lemma NoHashes(recs: seq<Record>, c: nat)
    requires c <= |recs|
    ensures CountNames(recs, c, c, []) == 0
  {
  }

  /** No record is lost and none is counted twice: the groups hold as many names as
      there are records. */
  lemma {:induction false} EveryNameOnce(recs: seq<Record>, c: nat, n: nat)
    requires c <= n <= |recs|
    ensures CountNames(recs, c, n, Seen(recs, c, n)) == n - c
  {
    hide CountNames, Names;
    if c == n {
      NoHashes(recs, c);
    } else {
      EveryNameOnce(recs, c, n - 1);
      SeenSound(recs, c, n - 1);
      var s, h := Seen(recs, c, n - 1), recs[n - 1].hash;
      OneMoreName(recs, c, n, s);
      if h !in s {
        assert Seen(recs, c, n) == s + [h];
        LastHash(recs, c, n, s, h);
      }
    }
  }

  /** Every record's name stands under its hash, after the names of the earlier records
      with that hash. */
  lemma {:induction false} NamePlace(recs: seq<Record>, c: nat, n: nat, k: nat)
    requires c <= k < n <= |recs|
    ensures
      var h := recs[k].hash;
      && |Names(recs, c, k, h)| < |Names(recs, c, n, h)|
      && Names(recs, c, n, h)[|Names(recs, c, k, h)|] == recs[k].name
  {
    if k < n - 1 {
      NamePlace(recs, c, n - 1, k);
    }
  }

  // ----- The reader -----

  /** Record k is the first from c on with the hash. */
  ghost predicate FirstWith(recs: seq<Record>, c: nat, k: nat, h: string)
    requires c <= k < |recs|
  {
    recs[k].hash == h && forall j :: c <= j < k ==> recs[j].hash != h
  }

  /** A target of the dictionary: the times of the first record with its hash, and all its
      names. */
  ghost predicate Filed(recs: seq<Record>, c: nat, n: nat, h: string, t: Target)
    requires c <= n <= |recs|
    reads t
  {
    && t.names == Names(recs, c, n, h)
    && exists k :: c <= k < n && FirstWith(recs, c, k, h) && t.start == recs[k].start && t.end == recs[k].end
  }

  /** The dictionary holds one target per hash of records c to n. */
  ghost predicate Grouped(recs: seq<Record>, c: nat, n: nat, order: seq<string>, dict: map<string, Target>)
    requires c <= n <= |recs|
    reads dict.Values
  {
    && order == Seen(recs, c, n)
    && (forall h :: h in order <==> h in dict)
    && (forall h, g :: h in dict && g in dict && h != g ==> dict[h] != dict[g])
    && (forall h :: h in dict ==> Filed(recs, c, n, h, dict[h]))
  }

  lemma NothingGrouped(recs: seq<Record>, n: nat)
    requires n <= |recs|
    ensures Grouped(recs, n, n, [], map[])
  {
  }

  /** The dictionary's times decide whether the next record restarts. */
  lemma RestartsByTarget(recs: seq<Record>, c: nat, n: nat, order: seq<string>, dict: map<string, Target>)
    requires c <= n < |recs| && Grouped(recs, c, n, order, dict) && OneBuild(recs, c, n)
    ensures
      var r := recs[n];
      (exists k :: c <= k < n && Clash(recs[k], r)) <==>
      r.hash in dict && (dict[r.hash].start != r.start || dict[r.hash].end != r.end)
  {
    hide Seen, Names;
    SeenSound(recs, c, n);
    var r := recs[n];
    if r.hash in dict {
      assert Filed(recs, c, n, r.hash, dict[r.hash]);
      var j :| c <= j < n && recs[j].hash == r.hash && dict[r.hash].start == recs[j].start &&
          dict[r.hash].end == recs[j].end;
      forall k | c <= k < n && recs[k].hash == r.hash ensures Clash(recs[k], r) <==> Clash(recs[j], r) {
        assert !Clash(recs[k], recs[j]);
      }
    }
  }

  /** Files one record under its hash, with a new target for a new hash. */
  method AddRecord(ghost recs: seq<Record>, ghost c: nat, ghost n: nat, r: Record,
                   order: seq<string>, dict: map<string, Target>)
    returns (order': seq<string>, dict': map<string, Target>)
    requires c <= n < |recs| && recs[n] == r && Grouped(recs, c, n, order, dict)
    modifies dict.Values`names
    ensures Grouped(recs, c, n + 1, order', dict')
    ensures forall h :: h in dict' ==> (h in dict && dict'[h] == dict[h]) || fresh(dict'[h])
  {
    SeenSound(recs, c, n);
    order', dict' := order, dict;
    if r.hash !in dict {
      var target := new Target(r.start, r.end);
      order', dict' := order + [r.hash], dict[r.hash := target];
    }
    dict'[r.hash].names := dict'[r.hash].names + [r.name];
    forall h | h in dict' ensures Filed(recs, c, n + 1, h, dict'[h]) {
      if h in dict {
        assert old(Filed(recs, c, n, h, dict[h]));
      }
    }
  }

  lemma Start(recs: seq<Record>, log: seq<Line>)
    ensures Records(log[..0]) == [] && Cut(recs, 0) == 0 && Grouped(recs, 0, 0, [], map[])
  {
    NothingGrouped(recs, 0);
  }

  /** What the two tests of the loop decide about record n. */
  lemma NextCut(recs: seq<Record>, c: nat, n: nat, order: seq<string>, dict: map<string, Target>, lastEndSeen: real)
    returns (restarts: bool)
    requires n < |recs| && c == Cut(recs, n) && Grouped(recs, c, n, order, dict)
    requires n > 0 ==> lastEndSeen == recs[n - 1].end
    ensures Cut(recs, n + 1) == if restarts then n else c
    ensures
      var r := recs[n];
      var late := r.hash in dict && (dict[r.hash].start != r.start || dict[r.hash].end != r.end);
      (r.end < lastEndSeen || late ==> restarts || (dict == map[] && order == [] && c == n)) &&
      (restarts ==> r.end < lastEndSeen || late)
  {
    CutIsOneBuild(recs, n);
    RestartsByTarget(recs, c, n, order, dict);
    restarts := Restarts(recs, c, n);
    if n == 0 {
      assert dict.Keys == {};
      assert dict == map[];
    }
  }

  lemma Listed(recs: seq<Record>, c: nat, n: nat, order: seq<string>, dict: map<string, Target>)
    requires c <= n <= |recs| && Grouped(recs, c, n, order, dict)
    ensures order == Seen(recs, c, n)
    ensures forall i :: 0 <= i < |order| ==> order[i] in dict && Filed(recs, c, n, order[i], dict[order[i]])
    ensures forall j, k :: 0 <= j < k < |order| ==> dict[order[j]] != dict[order[k]]
  {
    SeenSound(recs, c, n);
  }

  /** The records of the last build, or of the whole log, grouped by hash. */
  method ReadTargets(log: seq<Line>, showAll: bool)
    returns (targets: seq<Target>, ghost hashes: seq<string>, ghost c: nat)
    ensures var recs := Records(log); c == if showAll then 0 else Cut(recs, |recs|)
    ensures c <= |Records(log)| && hashes == Seen(Records(log), c, |Records(log)|)
    ensures |targets| == |hashes|
    ensures forall j, k :: 0 <= j < k < |targets| ==> targets[j] != targets[k]
    ensures forall i :: 0 <= i < |targets| ==> Filed(Records(log), c, |Records(log)|, hashes[i], targets[i])
  {
    hide *;
    var dict: map<string, Target> := map[];
    var order: seq<string> := [];
    var lastEndSeen := 0.0;
    ghost var recs := Records(log);
    ghost var n := 0;
    c := 0;
    Start(recs, log);
    for i := 0 to |log|
      invariant n == |Records(log[..i])| <= |recs|
      invariant c <= n && c == if showAll then 0 else Cut(recs, n)
      invariant n > 0 ==> lastEndSeen == recs[n - 1].end
      invariant Grouped(recs, c, n, order, dict)
      invariant forall h :: h in dict ==> fresh(dict[h])
    {
      NextLine(log, i);
      if log[i].Malformed? {
        continue;
      }
      var r := log[i].record;
      if !showAll {
        ghost var restarts := NextCut(recs, c, n, order, dict, lastEndSeen);
        if r.end < lastEndSeen {
          dict, order := map[], [];
        }
        if r.hash in dict && (dict[r.hash].start != r.start || dict[r.hash].end != r.end) {
          dict, order := map[], [];
        }
        NothingGrouped(recs, n);
        c := if restarts then n else c;
      }
      order, dict := AddRecord(recs, c, n, r, order, dict);
      lastEndSeen := r.end;
      n := n + 1;
    }
    assert log[..|log|] == log;
    Listed(recs, c, n, order, dict);
    hashes := order;
    targets := seq(|order|, i requires 0 <= i < |order| && order[i] in dict => dict[order[i]]);
  }
}
