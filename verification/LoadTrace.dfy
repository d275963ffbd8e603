/** A load step by step: the hits are pinned, each miss gets the super-block preferred at its
    turn, and a miss that gets none undoes the ones before. */
module LoadTrace {
  import opened PoolState
  import opened PoolSteps
  import opened ExpertRoom
  import opened ExpertLoad
  import opened Recency

  /** The needed experts that are resident, in order. */
  function Residents(needed: seq<nat>, sbAt: map<nat, nat>): seq<nat> {
    if needed == [] then []
    else
      var n := |needed| - 1;
      Residents(needed[..n], sbAt) + if needed[n] in sbAt then [needed[n]] else []
  }

  /** The needed experts that are not. */
  function Missing(needed: seq<nat>, sbAt: map<nat, nat>): seq<nat> {
    if needed == [] then []
    else
      var n := |needed| - 1;
      Missing(needed[..n], sbAt) + if needed[n] in sbAt then [] else [needed[n]]
  }

  lemma PartitionNone(needed: seq<nat>, sbAt: map<nat, nat>)
    ensures needed[..0] == [] && Residents([], sbAt) == [] && Missing([], sbAt) == []
    ensures needed[..|needed|] == needed
  {
  }

  lemma PartitionNext(needed: seq<nat>, sbAt: map<nat, nat>, n: nat)
    requires n < |needed|
    ensures Residents(needed[..n + 1], sbAt)
         == Residents(needed[..n], sbAt) + if needed[n] in sbAt then [needed[n]] else []
    ensures Missing(needed[..n + 1], sbAt)
         == Missing(needed[..n], sbAt) + if needed[n] in sbAt then [] else [needed[n]]
  {
    assert needed[..n + 1][..n] == needed[..n];
  }

  /** The hits are restamped and pinned where they are. */
  function HitAll(p: Pool, i: nat, hits: seq<nat>): (q: Pool)
    requires i < |p.layers|
    ensures |q.layers| == |p.layers| && q.refs == p.refs && q.layers[i].sbAt == p.layers[i].sbAt
  {
    if hits == [] then p
    else
      var q, e := HitAll(p, i, hits[..|hits| - 1]), hits[|hits| - 1];
      if e in q.layers[i].sbAt then Pin(Bump(q, i, e), i, q.layers[i].sbAt[e]) else q
  }

  lemma HitNone(p: Pool, i: nat, hits: seq<nat>)
    requires i < |p.layers|
    ensures hits[..0] == [] && HitAll(p, i, []) == p
  {
  }

  lemma HitNext(p: Pool, i: nat, hits: seq<nat>, n: nat)
    requires i < |p.layers| && n < |hits| && hits[n] in p.layers[i].sbAt
    ensures
      var q := HitAll(p, i, hits[..n]);
      HitAll(p, i, hits[..n + 1]) == Pin(Bump(q, i, hits[n]), i, p.layers[i].sbAt[hits[n]])
  {
    hide Pin, Bump;
    assert hits[..n + 1][..n] == hits[..n];
  }

  /** The experts at these super-blocks are dropped again. */
  function UndoAll(p: Pool, i: nat, ss: seq<nat>): (q: Pool)
    requires i < |p.layers|
    ensures |q.layers| == |p.layers|
  {
    if ss == [] then p else DropMapping(UndoAll(p, i, ss[..|ss| - 1]), i, ss[|ss| - 1])
  }

  lemma UndoNone(p: Pool, i: nat, ss: seq<nat>)
    requires i < |p.layers|
    ensures ss[..0] == [] && UndoAll(p, i, []) == p
  {
  }

  lemma UndoNext(p: Pool, i: nat, ss: seq<nat>, n: nat)
    requires i < |p.layers| && n < |ss|
    ensures UndoAll(p, i, ss[..n + 1]) == DropMapping(UndoAll(p, i, ss[..n]), i, ss[n])
  {
    hide DropMapping;
    assert ss[..n + 1][..n] == ss[..n];
  }

  /** Dropping the first n of the super-blocks claimed takes away exactly the first n misses. */
  lemma {:induction false} UndoneSoFar(c: Config, p0: Pool, p: Pool, i: nat, misses: seq<nat>, claimed: seq<nat>,
                                       n: nat)
    requires i < |p.layers| && Claims(p, i, misses, claimed) && Undoing(c, p0, p, i) && n <= |claimed|
    requires NoRepeats(misses)
    ensures
      var q := UndoAll(p, i, claimed[..n]);
      && Undoing(c, p0, q, i) && q.layers[i].sbAt == p.layers[i].sbAt - Members(misses[..n])
      && (n < |claimed| ==>
            claimed[n] in q.layers[i].expertAt && q.layers[i].expertAt[claimed[n]] < |q.layers[i].table|)
  {
    hide Undoing, DropMapping, UndoAll, Members, NoRepeats, Claims;
    var all := p.layers[i].sbAt;
    if n == 0 {
      UndoNone(p, i, claimed);
      NoMembersYet(misses);
      assert all - {} == all;
    } else {
      UndoneSoFar(c, p0, p, i, misses, claimed, n - 1);
      UndoNext(p, i, claimed, n - 1);
      ClaimAt(p, i, misses, claimed, n - 1);
      NotAmong(misses, n - 1);
      UndoStep(c, p0, UndoAll(p, i, claimed[..n - 1]), i, misses[n - 1]);
      NextMembers(misses, n - 1);
      assert all - Members(misses[..n - 1]) - {misses[n - 1]} == all - Members(misses[..n]);
    }
    if n < |claimed| {
      ClaimAt(p, i, misses, claimed, n);
      NotAmong(misses, n);
      UndoStep(c, p0, UndoAll(p, i, claimed[..n]), i, misses[n]);
    }
  }

  lemma ClaimAt(p: Pool, i: nat, misses: seq<nat>, claimed: seq<nat>, k: nat)
    requires Claims(p, i, misses, claimed) && k < |claimed|
    ensures k < |misses| && misses[k] in p.layers[i].sbAt && p.layers[i].sbAt[misses[k]] == claimed[k]
  {
  }

  /** One miss: there is room, super-block s is the one preferred, and once it has been made
      vacant expert e is loaded there. */
  ghost predicate LoadStep(c: Config, p: Pool, q: Pool, i: nat, needed: set<nat>, e: nat, s: nat, knobs: Knobs) {
    && c.F > 0 && |p.refs| == c.pages && i < |p.layers| && !Crowded(c, p, i, needed) && !Stuck(c, p, i)
    && exists r, d :: TierOk(c, p, r, i, needed, s, d, knobs) && LoadedInto(c, r, q, i, s, e)
  }

  ghost predicate LoadedInto(c: Config, r: Pool, q: Pool, i: nat, s: nat, e: nat) {
    && c.F > 0 && i < |r.layers| && i < |r.mem| && i < |c.weights| && e < |c.weights[i]| && |c.weights[i][e]| == c.F
    && q == LoadExpert(c, r, i, s, e)
  }

  /** The states between the misses, and the super-blocks they were given. */
  ghost predicate Loads(c: Config, ps: seq<Pool>, ss: seq<nat>, i: nat, needed: set<nat>, misses: seq<nat>,
                        knobs: Knobs) {
    && |ss| <= |misses| && |ps| == |ss| + 1
    && forall k :: 0 <= k < |ss| ==> LoadStepAt(c, ps, ss, i, needed, misses, knobs, k)
  }

  ghost predicate LoadStepAt(c: Config, ps: seq<Pool>, ss: seq<nat>, i: nat, needed: set<nat>, misses: seq<nat>,
                             knobs: Knobs, k: nat)
    requires k < |ss| <= |misses| && |ps| == |ss| + 1
  {
    LoadStep(c, ps[k], ps[k + 1], i, needed, misses[k], ss[k], knobs)
  }

  lemma LoadsStart(c: Config, p: Pool, i: nat, needed: set<nat>, misses: seq<nat>, knobs: Knobs)
    ensures Loads(c, [p], [], i, needed, misses, knobs)
  {
  }

  lemma LoadsNext(c: Config, ps: seq<Pool>, ss: seq<nat>, i: nat, needed: set<nat>, misses: seq<nat>, knobs: Knobs,
                  q: Pool, s: nat)
    requires Loads(c, ps, ss, i, needed, misses, knobs) && |ss| < |misses|
    requires LoadStep(c, ps[|ss|], q, i, needed, misses[|ss|], s, knobs)
    ensures Loads(c, ps + [q], ss + [s], i, needed, misses, knobs)
  {
    hide LoadStep;
    var (qs, ts) := (ps + [q], ss + [s]);
    forall k | 0 <= k < |ts| ensures LoadStepAt(c, qs, ts, i, needed, misses, knobs, k) {
      if k < |ss| {
        assert LoadStepAt(c, ps, ss, i, needed, misses, knobs, k);
      }
    }
  }

  /** How a load from p ends in m: with all misses loaded, or at the first that finds every
      super-block kept or gets stuck, with what was loaded dropped and the pins cleared. */
  ghost predicate EndsIn(c: Config, ps: seq<Pool>, ss: seq<nat>, i: nat, needed: set<nat>, misses: seq<nat>,
                         r: LoadResult, m: Pool)
    requires |ps| == |ss| + 1 && |ss| <= |misses|
  {
    var last := ps[|ss|];
    if r.AllLoaded? then |ss| == |misses| && m == last
    else
      && |ss| < |misses| && i < |last.layers| && m == Unpin(UndoAll(last, i, ss), i)
      && c.F > 0 && |last.refs| == c.pages
      && (if r.LoadExhausted? then Crowded(c, last, i, needed) && !Stuck(c, last, i) else Stuck(c, last, i))
  }

  ghost predicate LoadedBy(c: Config, p: Pool, m: Pool, i: nat, needed: seq<nat>, r: LoadResult, ps: seq<Pool>,
                           ss: seq<nat>, knobs: Knobs)
    requires i < |p.layers|
  {
    var misses := Missing(needed, p.layers[i].sbAt);
    && Loads(c, ps, ss, i, Members(needed), misses, knobs)
    && ps[0] == HitAll(p, i, Residents(needed, p.layers[i].sbAt))
    && EndsIn(c, ps, ss, i, Members(needed), misses, r, m)
  }
}
