/**
  The signatures of graph partitions (env_override.py): a backward pass over the compiled
  partitions decides what each one takes in, frees and returns.  It is right only if
  running the partitions forward never misses a buffer.
 */
module PartitionSignature {

  type Name = string

  /** A buffer's layout; a mutation output stands for the buffer it mutates. */
  datatype Buffer = Buffer(noneLayout: bool, mutation: bool)

  /** What the pass reads of the graph: its output names, the names that have nodes, the
      constants, the buffers and the names of mutated buffers. */
  datatype Graph = Graph(outputs: set<Name>, nodes: set<Name>, constants: set<Name>,
                         buffers: map<Name, Buffer>, realName: map<Name, Name>)

  /** One scheduler node: what it defines, reads or writes, and uses for the last time. */
  datatype Node = Node(outputs: set<Name>, uses: set<Name>, lastUsage: set<Name>)

  type Partition = seq<Node>

  datatype Signature = Signature(inputs: set<Name>, freed: map<Name, bool>, outputs: set<Name>,
                                 skipCudagraph: bool, constants: set<Name>)

  datatype Result = Ok(signatures: seq<Signature>) | KeyError(name: Name)

  /** Real names are not renamed again. */
  ghost predicate Settled(g: Graph) {
    forall n :: n in g.realName ==> g.realName[n] !in g.realName
  }

  function Real(g: Graph, n: Name): Name { if n in g.realName then g.realName[n] else n }

  /** A buffer without storage; a mutation of one that has storage does not count. */
  predicate NoneLayout(g: Graph, n: Name)
    requires Settled(g)
    decreases if n in g.realName then 1 else 0
  {
    n in g.buffers && g.buffers[n].noneLayout &&
    (g.buffers[n].mutation && n in g.realName ==> NoneLayout(g, g.realName[n]))
  }

  // ----- What the nodes of a partition say -----

  /** The pass knows n by its real name. */
  ghost predicate StandsFor(g: Graph, n: Name, known: Name) {
    if n in g.realName then g.realName[n] == known else n == known
  }

  ghost predicate Bare(g: Graph, n: Name) { n in g.buffers && g.buffers[n].noneLayout }

  /** n has storage: its own, or as a mutation that of the buffer it mutates. */
  ghost predicate Stored(g: Graph, n: Name) {
    Bare(g, n) ==> g.buffers[n].mutation && n in g.realName && !Bare(g, g.realName[n])
  }

  lemma StoredIff(g: Graph, n: Name)
    requires Settled(g)
    ensures Stored(g, n) <==> !NoneLayout(g, n)
  {
  }

  /** Some node defines n. */
  ghost predicate Defines(part: Partition, n: Name) {
    exists i :: 0 <= i < |part| && n in part[i].outputs
  }

  /** Some node uses n for the last time. */
  ghost predicate Drops(part: Partition, n: Name) {
    exists i :: 0 <= i < |part| && n in part[i].lastUsage
  }

  /** Some node reads or writes a stored name, known as this one, that no node defines. */
  ghost predicate Reads(g: Graph, part: Partition, known: Name) {
    exists i, n :: 0 <= i < |part| && n in part[i].uses && Stored(g, n) && !Defines(part, n) && StandsFor(g, n, known)
  }

  /** Read or written, or dropped from an earlier partition. */
  ghost predicate TakesIn(g: Graph, part: Partition, n: Name) {
    Reads(g, part, n) || (Drops(part, n) && !Defines(part, n) && n in g.nodes)
  }

  /** Something defined here that is still wanted, or taken in and not dropped, has this name. */
  ghost predicate GivesBack(g: Graph, part: Partition, unmet: set<Name>, known: Name) {
    exists n :: StandsFor(g, n, known) && Offers(g, part, unmet, n)
  }

  ghost predicate Offers(g: Graph, part: Partition, unmet: set<Name>, n: Name) {
    (Defines(part, n) && n in unmet) || (TakesIn(g, part, n) && n in g.nodes && !Drops(part, n))
  }

  /** The signature that the nodes of a partition call for, when unmet is wanted after it. */
  ghost predicate Signed(g: Graph, part: Partition, unmet: set<Name>, skip: bool, s: Signature) {
    && (forall n :: n in s.inputs <==> TakesIn(g, part, n) && n in g.nodes)
    && (forall n :: n in s.freed <==> n in s.inputs)
    && (forall n :: n in s.freed ==> (s.freed[n] <==> Drops(part, n)))
    && (forall n :: n in s.outputs <==> GivesBack(g, part, unmet, n) && Stored(g, n))
    && (forall n :: n in s.constants <==> TakesIn(g, part, n) && n in g.constants)
    && s.skipCudagraph == skip
  }

  // ----- One partition -----

  function Defs(part: Partition): set<Name> { set i, n | 0 <= i < |part| && n in part[i].outputs :: n }

  function Uses(part: Partition): set<Name> { set i, n | 0 <= i < |part| && n in part[i].uses :: n }

  function Frees(part: Partition): set<Name> { set i, n | 0 <= i < |part| && n in part[i].lastUsage :: n }

  /** What the partition reads or writes and did not define, under real names, and what it
      frees of earlier partitions. */
  function Inputs(g: Graph, part: Partition): set<Name>
    requires Settled(g)
  {
    (set n | n in Uses(part) && !NoneLayout(g, n) && n !in Defs(part) :: Real(g, n))
    + (set n | n in Frees(part) && n !in Defs(part) && n in g.nodes)
  }

  /** The inputs that live on after the partition. */
  function Passed(g: Graph, part: Partition): set<Name>
    requires Settled(g)
  {
    set n | n in Inputs(g, part) && n in g.nodes && n !in Frees(part)
  }

  function Returned(g: Graph, part: Partition, unmet: set<Name>): set<Name>
    requires Settled(g)
  {
    set n | n in Defs(part) * unmet + Passed(g, part) :: Real(g, n)
  }

  function Freed(g: Graph, part: Partition): set<Name>
    requires Settled(g)
  {
    set n | n in Inputs(g, part) && n in g.nodes && n in Frees(part)
  }

  /** Names with a node are looked up; a returned name without one is a KeyError. */
  ghost predicate Resolved(g: Graph, part: Partition, unmet: set<Name>)
    requires Settled(g)
  {
    forall n :: n in Returned(g, part, unmet) && !NoneLayout(g, n) ==> n in g.nodes
  }

  function SignatureOf(g: Graph, part: Partition, unmet: set<Name>, skip: bool): Signature
    requires Settled(g)
  {
    var inputs := Inputs(g, part) * g.nodes;
    var freed := map n | n in inputs :: n in Frees(part);
    var outputs := set n | n in Returned(g, part, unmet) && !NoneLayout(g, n);
    Signature(inputs, freed, outputs, skip, Inputs(g, part) * g.constants)
  }

  function UnmetBefore(g: Graph, part: Partition, unmet: set<Name>): set<Name>
    requires Settled(g)
  {
    Inputs(g, part) + (unmet - Returned(g, part, unmet))
  }

  // ----- All partitions, from the last to the first -----

  function Unmet(g: Graph, parts: seq<Partition>): set<Name>
    requires Settled(g)
  {
    if parts == [] then g.outputs else UnmetBefore(g, parts[0], Unmet(g, parts[1..]))
  }

  function Signatures(g: Graph, parts: seq<Partition>, skips: seq<bool>): (r: seq<Signature>)
    requires Settled(g) && |skips| == |parts|
    ensures |r| == |parts|
  {
    if parts == [] then []
    else [SignatureOf(g, parts[0], Unmet(g, parts[1..]), skips[0])] + Signatures(g, parts[1..], skips[1..])
  }

  // ----- The sets against the nodes -----

  lemma InputsAre(g: Graph, part: Partition, n: Name)
    requires Settled(g)
    ensures n in Inputs(g, part) <==> TakesIn(g, part, n)
    ensures (n in Defs(part) <==> Defines(part, n)) && (n in Frees(part) <==> Drops(part, n))
  {
    hide NoneLayout;
    forall m ensures m in Defs(part) <==> Defines(part, m) { }
    hide Defs, Defines;
    forall m ensures Stored(g, m) <==> !NoneLayout(g, m) {
      StoredIff(g, m);
    }
    if Reads(g, part, n) {
      var i, m :| 0 <= i < |part| && m in part[i].uses && Stored(g, m) && m !in Defs(part) && StandsFor(g, m, n);
      assert m in Uses(part) && Real(g, m) == n;
    }
    if m :| m in Uses(part) && !NoneLayout(g, m) && m !in Defs(part) && Real(g, m) == n {
      assert StandsFor(g, m, n);
    }
  }

  lemma ReturnedAre(g: Graph, part: Partition, unmet: set<Name>, n: Name)
    requires Settled(g)
    ensures n in Returned(g, part, unmet) <==> GivesBack(g, part, unmet, n)
  {
    hide Inputs, Defs, Frees, TakesIn, Defines, Drops;
    forall m ensures m in Defs(part) * unmet + Passed(g, part) <==> Offers(g, part, unmet, m) {
      InputsAre(g, part, m);
    }
    forall m ensures StandsFor(g, m, n) <==> Real(g, m) == n { }
  }

  /** The signature of a partition is the one its nodes call for, and before it the names are
      unmet that it takes in and those still unmet after it that it does not give back. */
  lemma SignatureIs(g: Graph, part: Partition, unmet: set<Name>, skip: bool)
    requires Settled(g)
    ensures Signed(g, part, unmet, skip, SignatureOf(g, part, unmet, skip))
    ensures forall n :: n in UnmetBefore(g, part, unmet) <==>
              TakesIn(g, part, n) || (n in unmet && !GivesBack(g, part, unmet, n))
    ensures Resolved(g, part, unmet) <==> forall n :: GivesBack(g, part, unmet, n) && Stored(g, n) ==> n in g.nodes
  {
    hide Inputs, Returned, Defs, Frees, TakesIn, Drops, Defines, GivesBack, Stored, NoneLayout;
    forall n ensures n in Inputs(g, part) <==> TakesIn(g, part, n) { InputsAre(g, part, n); }
    forall n ensures n in Frees(part) <==> Drops(part, n) { InputsAre(g, part, n); }
    forall n ensures n in Returned(g, part, unmet) <==> GivesBack(g, part, unmet, n) {
      ReturnedAre(g, part, unmet, n);
    }
    forall n ensures Stored(g, n) <==> !NoneLayout(g, n) { StoredIff(g, n); }
  }

  /** A stored name that a node uses and no node of the partition defines is unmet before the
      partition under its real name, and an input if that has a node. */
  lemma UsedIsTakenIn(g: Graph, part: Partition, unmet: set<Name>, skip: bool, i: nat, n: Name, known: Name)
    requires Settled(g) && i < |part| && n in part[i].uses && Stored(g, n) && StandsFor(g, n, known)
    requires forall j :: 0 <= j < |part| ==> n !in part[j].outputs
    ensures known in UnmetBefore(g, part, unmet)
    ensures known in g.nodes ==> known in SignatureOf(g, part, unmet, skip).inputs
  {
    hide Stored, SignatureOf, UnmetBefore;
    assert !Defines(part, n);
    assert Reads(g, part, known);
    SignatureIs(g, part, unmet, skip);
  }

  lemma {:induction false} SignaturesAt(g: Graph, parts: seq<Partition>, skips: seq<bool>, k: nat)
    requires Settled(g) && k < |parts| == |skips|
    ensures Signatures(g, parts, skips)[k] == SignatureOf(g, parts[k], Unmet(g, parts[k + 1..]), skips[k])
  {
    hide SignatureOf, Unmet;
    if k > 0 {
      SignaturesAt(g, parts[1..], skips[1..], k - 1);
      assert parts[1..][k - 1 + 1..] == parts[k + 1..];
    }
  }

  /** The names defined, used and freed by a partition's nodes, gathered node by node. */
  method Gather(part: Partition) returns (defs: set<Name>, uses: set<Name>, frees: set<Name>)
    ensures defs == Defs(part) && uses == Uses(part) && frees == Frees(part)
  {
    defs, uses, frees := {}, {}, {};
    for i := 0 to |part|
      invariant defs == Defs(part[..i]) && uses == Uses(part[..i]) && frees == Frees(part[..i])
    {
      defs, uses, frees := defs + part[i].outputs, uses + part[i].uses, frees + part[i].lastUsage;
      assert part[..i + 1] == part[..i] + [part[i]];
      OneMoreNode(part[..i], part[i]);
    }
    assert part[..|part|] == part;
  }

  lemma OneMoreNode(part: Partition, node: Node)
    ensures Defs(part + [node]) == Defs(part) + node.outputs
    ensures Uses(part + [node]) == Uses(part) + node.uses
    ensures Frees(part + [node]) == Frees(part) + node.lastUsage
  {
    var more := part + [node];
    assert more[|part|] == node && forall i :: 0 <= i < |part| ==> more[i] == part[i];
  }

  /** One partition: its signature, and the names unmet before it. */
  method Sign(g: Graph, part: Partition, unmet: set<Name>, skip: bool)
    returns (ok: bool, missing: Name, signature: Signature, before: set<Name>)
    requires Settled(g)
    ensures ok <==> Resolved(g, part, unmet)
    ensures !ok ==> missing in Returned(g, part, unmet) && missing !in g.nodes
    ensures signature == SignatureOf(g, part, unmet, skip) && before == UnmetBefore(g, part, unmet)
  {
    hide Defs, Uses, Frees, NoneLayout, Real;
    var defs, uses, frees := Gather(part);
    var returned := defs * unmet;
    var inputs := set x | x in uses && !NoneLayout(g, x) && x !in defs :: Real(g, x);
    inputs := inputs + set x | x in frees && x !in defs && x in g.nodes;
    assert inputs == Inputs(g, part);
    hide Inputs;
    var inputNodes := inputs * g.nodes;
    var freed := map x | x in inputNodes :: x in frees;
    var passed := set x | x in inputs && x in g.nodes && x !in frees;
    assert passed == Passed(g, part);
    returned := returned + passed;
    returned := set x | x in returned :: Real(g, x);
    assert returned == Returned(g, part, unmet);
    hide Returned;
    var outputs := set x | x in returned && !NoneLayout(g, x);
    signature := Signature(inputNodes, freed, outputs, skip, inputs * g.constants);
    before := inputs + (unmet - returned);
    ok, missing := true, "";
    if x :| x in outputs && x !in g.nodes {
      ok, missing := false, x;
    }
  }

  /** The backward pass.  Partitions and flags are zipped from the end, so a surplus of
      either at the front is ignored. */
  method GetSignatures(g: Graph, partitions: seq<Partition>, skipCudagraphs: seq<bool>) returns (r: Result)
    requires Settled(g)
    ensures
      var (parts, skips) := Zipped(partitions, skipCudagraphs);
      && (r.Ok? ==> r.signatures == Signatures(g, parts, skips))
      && (r.Ok? <==> forall k :: 0 <= k < |parts| ==> Resolved(g, parts[k], Unmet(g, parts[k + 1..])))
      && (r.Ok? ==> forall k :: 0 <= k < |parts| ==>
            Signed(g, parts[k], Unmet(g, parts[k + 1..]), skips[k], r.signatures[k]))
    ensures |partitions| == |skipCudagraphs| && r.Ok? ==>
              r.signatures == Signatures(g, partitions, skipCudagraphs)
  {
    hide Signed, SignatureOf, UnmetBefore, Resolved, Unmet, Signatures, Reversed, Zipped;
    var (parts, skips) := Zipped(partitions, skipCudagraphs);
    var backward: seq<Signature> := [];
    var unmet := g.outputs;
    var n := |parts|;
    assert parts[n..] == [] && skips[n..] == [];
    NoPartitions(g);
    while n > 0
      invariant 0 <= n <= |parts| && |backward| == |parts| - n
      invariant unmet == Unmet(g, parts[n..])
      invariant Reversed(backward) == Signatures(g, parts[n..], skips[n..])
      invariant forall k :: n <= k < |parts| ==> Resolved(g, parts[k], Unmet(g, parts[k + 1..]))
    {
      n := n - 1;
      OneMorePartition(g, parts, skips, n);
      var found, missing, signature, before := Sign(g, parts[n], unmet, skips[n]);
      if !found {
        return KeyError(missing);
      }
      ReversedLast(backward, signature);
      backward := backward + [signature];
      unmet := before;
    }
    assert parts[0..] == parts && skips[0..] == skips;
    forall k | 0 <= k < |parts|
      ensures Signed(g, parts[k], Unmet(g, parts[k + 1..]), skips[k], Signatures(g, parts, skips)[k])
    {
      SignaturesAt(g, parts, skips, k);
      SignatureIs(g, parts[k], Unmet(g, parts[k + 1..]), skips[k]);
    }
    ZippedWhole(partitions, skipCudagraphs);
    return Ok(Reversed(backward));
  }

  lemma NoPartitions(g: Graph)
    requires Settled(g)
    ensures Unmet(g, []) == g.outputs && Signatures(g, [], []) == [] && Reversed<Signature>([]) == []
  {
  }

  lemma OneMorePartition(g: Graph, parts: seq<Partition>, skips: seq<bool>, n: nat)
    requires Settled(g) && n < |parts| == |skips|
    ensures Unmet(g, parts[n..]) == UnmetBefore(g, parts[n], Unmet(g, parts[n + 1..]))
    ensures Signatures(g, parts[n..], skips[n..]) ==
            [SignatureOf(g, parts[n], Unmet(g, parts[n + 1..]), skips[n])] +
            Signatures(g, parts[n + 1..], skips[n + 1..])
  {
    hide SignatureOf, UnmetBefore;
    assert parts[n..][1..] == parts[n + 1..] && skips[n..][1..] == skips[n + 1..];
  }

  function Zipped(partitions: seq<Partition>, skips: seq<bool>): (r: (seq<Partition>, seq<bool>))
    ensures |r.0| == |r.1|
  {
    var m := if |partitions| < |skips| then |partitions| else |skips|;
    (partitions[|partitions| - m..], skips[|skips| - m..])
  }

  lemma ZippedWhole(partitions: seq<Partition>, skips: seq<bool>)
    ensures |partitions| == |skips| ==> Zipped(partitions, skips) == (partitions, skips)
  {
  }

  function Reversed<T>(s: seq<T>): (r: seq<T>)
    ensures |r| == |s|
  {
    if s == [] then [] else Reversed(s[1..]) + [s[0]]
  }

  lemma {:induction false} ReversedLast<T>(s: seq<T>, x: T)
    ensures Reversed(s + [x]) == [x] + Reversed(s)
  {
    if s != [] {
      assert (s + [x])[1..] == s[1..] + [x];
      ReversedLast(s[1..], x);
    }
  }

  // ----- Running the partitions forward -----

  /** Each partition finds its inputs; it removes those it frees and adds what it returns.
      At the end every graph output exists. */
  ghost predicate Runs(sigs: seq<Signature>, env: set<Name>, outputs: set<Name>) {
    if sigs == [] then outputs <= env
    else sigs[0].inputs <= env && Runs(sigs[1..], After(sigs[0], env), outputs)
  }

  ghost function After(s: Signature, env: set<Name>): set<Name> {
    (set n | n in env && !(n in s.freed && s.freed[n])) + s.outputs
  }

  /** No partition frees, without returning it, an input that is still unmet after it. */
  ghost predicate FreesOnlyTheDead(g: Graph, parts: seq<Partition>)
    requires Settled(g)
  {
    forall k :: 0 <= k < |parts| ==>
      forall n :: n in Freed(g, parts[k]) && n in Unmet(g, parts[k + 1..]) ==>
          n in Returned(g, parts[k], Unmet(g, parts[k + 1..]))
  }

  /** The unmet names that a run can ask for: inputs are looked up by node, outputs by name. */
  ghost function Asked(g: Graph, parts: seq<Partition>): set<Name>
    requires Settled(g)
  {
    set n | n in Unmet(g, parts) && (n in g.nodes || n in g.outputs)
  }

  /** A name without storage is never returned.  So if it is still asked for after partition
      k, it must have been there from the start and not been freed on the way. */
  ghost predicate KeepsStorageless(g: Graph, parts: seq<Partition>, env: set<Name>)
    requires Settled(g)
  {
    forall k, n :: 0 <= k < |parts| && n in AskedAfter(g, parts, k) && NoneLayout(g, n) ==>
      n in env && SparedUpTo(g, parts, k, n)
  }

  ghost function AskedAfter(g: Graph, parts: seq<Partition>, k: nat): set<Name>
    requires Settled(g) && k < |parts|
  {
    Asked(g, parts[k + 1..])
  }

  /** None of the partitions 0..k frees n. */
  ghost predicate SparedUpTo(g: Graph, parts: seq<Partition>, k: nat, n: Name)
    requires Settled(g) && k < |parts|
  {
    forall j :: 0 <= j <= k ==> n !in Freed(g, parts[j])
  }

  /** A name that is unmet and missing stays missing until some partition or the end asks for it. */
  lemma {:induction false} Starves(g: Graph, parts: seq<Partition>, skips: seq<bool>, env: set<Name>, n: Name)
    requires Settled(g) && |skips| == |parts| && n in Unmet(g, parts) && n in g.nodes && n !in env
    ensures !Runs(Signatures(g, parts, skips), env, g.outputs)
  {
    if parts != [] && n !in Inputs(g, parts[0]) {
      var sigs := Signatures(g, parts, skips);
      assert n in Unmet(g, parts[1..]) && n !in sigs[0].outputs;
      Starves(g, parts[1..], skips[1..], After(sigs[0], env), n);
      assert sigs[1..] == Signatures(g, parts[1..], skips[1..]);
    }
  }

  /** A graph output without storage that is missing stays missing. */
  lemma {:induction false} StoragelessOutput(g: Graph, parts: seq<Partition>, skips: seq<bool>, env: set<Name>, n: Name)
    requires Settled(g) && |skips| == |parts| && n in g.outputs && NoneLayout(g, n) && n !in env
    ensures !Runs(Signatures(g, parts, skips), env, g.outputs)
  {
    if parts != [] {
      var sigs := Signatures(g, parts, skips);
      StoragelessOutput(g, parts[1..], skips[1..], After(sigs[0], env), n);
      assert sigs[1..] == Signatures(g, parts[1..], skips[1..]);
    }
  }

  /** From any environment that holds the names asked for, the partitions run through
      exactly when nothing is freed that a later partition or the graph's outputs still
      need, and every name without storage that is still asked for was there all along. */
  lemma {:induction false} ForwardRun(g: Graph, parts: seq<Partition>, skips: seq<bool>, env: set<Name>)
    requires Settled(g) && |skips| == |parts| && Asked(g, parts) <= env
    ensures Runs(Signatures(g, parts, skips), env, g.outputs) <==>
            FreesOnlyTheDead(g, parts) && KeepsStorageless(g, parts, env)
  {
    hide Inputs, Returned, Freed, After, SignatureOf, UnmetBefore, NoneLayout, FreesOnlyTheDead, KeepsStorageless,
         Unmet;
    if parts == [] {
      NoneLeft(g, env);
    } else {
      var rest, later := parts[1..], skips[1..];
      var sig := SignatureOf(g, parts[0], Unmet(g, rest), skips[0]);
      assert Signatures(g, parts, skips)[1..] == Signatures(g, rest, later);
      DeadNow(g, parts);
      KeptNow(g, parts, skips[0], env);
      StepForward(g, parts, skips[0], env);
      if n :| n in Asked(g, rest) && n !in After(sig, env) {
        if n in g.nodes {
          Starves(g, rest, later, After(sig, env), n);
        } else {
          StoragelessOutput(g, rest, later, After(sig, env), n);
        }
      } else {
        ForwardRun(g, rest, later, After(sig, env));
      }
    }
  }

  lemma NoneLeft(g: Graph, env: set<Name>)
    requires Settled(g)
    ensures FreesOnlyTheDead(g, []) && KeepsStorageless(g, [], env) && Unmet(g, []) == g.outputs
  {
  }

  /** One partition run where the names asked for are at hand: what is asked for afterwards
      is there, but for stored names freed and not returned, and names without storage that
      were missing or are freed. */
  lemma StepForward(g: Graph, parts: seq<Partition>, skip: bool, env: set<Name>)
    requires Settled(g) && parts != [] && Asked(g, parts) <= env
    ensures
      var unmet := Unmet(g, parts[1..]);
      var sig := SignatureOf(g, parts[0], unmet, skip);
      && sig.inputs <= env
      && (forall n :: n in Asked(g, parts[1..]) && !NoneLayout(g, n) ==>
            (n in After(sig, env) <==> n !in Freed(g, parts[0]) || n in Returned(g, parts[0], unmet)))
      && (forall n :: NoneLayout(g, n) ==> (n in After(sig, env) <==> n in env && n !in Freed(g, parts[0])))
      && (forall n :: n in Freed(g, parts[0]) ==> n in g.nodes)
  {
    hide Inputs, Returned, NoneLayout;
  }

  lemma KeptNow(g: Graph, parts: seq<Partition>, skip: bool, env: set<Name>)
    requires Settled(g) && parts != []
    ensures
      var sig := SignatureOf(g, parts[0], Unmet(g, parts[1..]), skip);
      KeepsStorageless(g, parts, env) <==>
        && KeepsStorageless(g, parts[1..], After(sig, env))
        && forall n :: n in Asked(g, parts[1..]) && NoneLayout(g, n) ==> n in env && n !in Freed(g, parts[0])
  {
    hide Inputs, Returned, NoneLayout, Asked, Unmet;
    var rest := parts[1..];
    var sig := SignatureOf(g, parts[0], Unmet(g, rest), skip);
    forall n | NoneLayout(g, n) ensures n in After(sig, env) <==> n in env && n !in Freed(g, parts[0]) { }
    hide After, SignatureOf, Freed;
    ShiftAsked(g, parts);
    if KeepsStorageless(g, parts, env) {
      forall k, n | 0 <= k < |rest| && n in AskedAfter(g, rest, k) && NoneLayout(g, n)
        ensures n in After(sig, env) && SparedUpTo(g, rest, k, n)
      {
        assert n in AskedAfter(g, parts, k + 1);
        ShiftSpared(g, parts, k + 1, n);
      }
      forall n | n in Asked(g, rest) && NoneLayout(g, n) ensures n in env && n !in Freed(g, parts[0]) {
        assert n in AskedAfter(g, parts, 0);
      }
    }
    if KeepsStorageless(g, rest, After(sig, env)) &&
       forall n :: n in Asked(g, rest) && NoneLayout(g, n) ==> n in env && n !in Freed(g, parts[0]) {
      forall k, n | 0 <= k < |parts| && n in AskedAfter(g, parts, k) && NoneLayout(g, n)
        ensures n in env && SparedUpTo(g, parts, k, n)
      {
        if k > 0 {
          assert n in AskedAfter(g, rest, k - 1);
          ShiftSpared(g, parts, k, n);
        }
      }
    }
  }

  lemma ShiftAsked(g: Graph, parts: seq<Partition>)
    requires Settled(g) && parts != []
    ensures AskedAfter(g, parts, 0) == Asked(g, parts[1..])
    ensures forall k :: 0 < k < |parts| ==> AskedAfter(g, parts, k) == AskedAfter(g, parts[1..], k - 1)
  {
    hide Asked;
    forall k | 0 < k < |parts| ensures AskedAfter(g, parts, k) == AskedAfter(g, parts[1..], k - 1) {
      assert parts[1..][k - 1 + 1..] == parts[k + 1..];
    }
  }

  lemma ShiftSpared(g: Graph, parts: seq<Partition>, k: nat, n: Name)
    requires Settled(g) && 0 < k < |parts|
    ensures SparedUpTo(g, parts, k, n) <==> n !in Freed(g, parts[0]) && SparedUpTo(g, parts[1..], k - 1, n)
  {
    hide Freed;
    var rest := parts[1..];
    if n !in Freed(g, parts[0]) && SparedUpTo(g, rest, k - 1, n) {
      forall j | 0 <= j <= k ensures n !in Freed(g, parts[j]) {
        if j > 0 {
          assert rest[j - 1] == parts[j];
        }
      }
    }
    if SparedUpTo(g, parts, k, n) {
      forall j | 0 <= j <= k - 1 ensures n !in Freed(g, rest[j]) {
        assert rest[j] == parts[j + 1];
      }
    }
  }

  // ----- In the caller's terms -----

  /** What a node uses for the last time is no graph output and not taken in by a later partition. */
  ghost predicate LastUsageIsLast(g: Graph, parts: seq<Partition>)
    requires Settled(g)
  {
    && (forall k, n :: 0 <= k < |parts| && Drops(parts[k], n) ==> n !in g.outputs)
    && (forall j, k, n :: 0 <= k < j < |parts| && Drops(parts[k], n) ==> !TakesIn(g, parts[j], n))
  }

  /** No name without storage is a graph output or taken in by a partition after the first. */
  ghost predicate StorageInPlace(g: Graph, parts: seq<Partition>)
    requires Settled(g)
  {
    forall n :: !Stored(g, n) ==> n !in g.outputs && forall j :: 0 < j < |parts| ==> !TakesIn(g, parts[j], n)
  }

  /** What is unmet is a graph output or an input of some partition. */
  lemma {:induction false} UnmetFrom(g: Graph, parts: seq<Partition>, n: Name)
    requires Settled(g) && n in Unmet(g, parts)
    ensures n in g.outputs || exists j :: 0 <= j < |parts| && n in Inputs(g, parts[j])
  {
    hide Inputs, Returned;
    if parts != [] && n !in Inputs(g, parts[0]) {
      UnmetFrom(g, parts[1..], n);
      if j :| 0 <= j < |parts[1..]| && n in Inputs(g, parts[1..][j]) {
        assert n in Inputs(g, parts[j + 1]);
      }
    }
  }

  /** If last usage is last and storage is in place, the partitions run through from any
      environment with the names asked for, and every graph output exists at the end. */
  lemma RunsThrough(g: Graph, parts: seq<Partition>, skips: seq<bool>, env: set<Name>)
    requires Settled(g) && |skips| == |parts| && Asked(g, parts) <= env
    requires LastUsageIsLast(g, parts) && StorageInPlace(g, parts)
    ensures Runs(Signatures(g, parts, skips), env, g.outputs)
  {
    hide Inputs, Returned, NoneLayout, Unmet, Runs;
    ForwardRun(g, parts, skips, env);
    forall k, n | 0 <= k < |parts| && n in AskedAfter(g, parts, k) ensures !NoneLayout(g, n) {
      NotFreedHere(g, parts, k, n);
    }
    assert KeepsStorageless(g, parts, env);
    forall k | 0 <= k < |parts|
      ensures forall n :: n in Freed(g, parts[k]) && n in Unmet(g, parts[k + 1..]) ==>
              n in Returned(g, parts[k], Unmet(g, parts[k + 1..]))
    {
      forall n | n in Freed(g, parts[k]) ensures n !in Unmet(g, parts[k + 1..]) {
        if n in Unmet(g, parts[k + 1..]) {
          NotFreedHere(g, parts, k, n);
        }
      }
    }
    assert FreesOnlyTheDead(g, parts);
  }

  lemma NotFreedHere(g: Graph, parts: seq<Partition>, k: nat, n: Name)
    requires Settled(g) && LastUsageIsLast(g, parts) && StorageInPlace(g, parts)
    requires k < |parts| && n in Unmet(g, parts[k + 1..])
    ensures !NoneLayout(g, n) && n !in Freed(g, parts[k])
  {
    hide Inputs, NoneLayout, Unmet, Drops, TakesIn, Stored, Frees;
    var rest := parts[k + 1..];
    UnmetFrom(g, rest, n);
    StoredIff(g, n);
    InputsAre(g, parts[k], n);
    if n !in g.outputs {
      var j :| 0 <= j < |rest| && n in Inputs(g, rest[j]);
      assert rest[j] == parts[k + 1 + j];
      InputsAre(g, rest[j], n);
    }
  }

  /** What the nodes of a partition read and write and it does not define is at hand; names
      without a node are looked up elsewhere unless strict. */
  ghost predicate Fed(g: Graph, part: Partition, env: set<Name>, strict: bool) {
    forall known :: Reads(g, part, known) && (strict || known in g.nodes) ==> known in env
  }

  /** The same partitions, seen from the nodes. */
  ghost predicate NodesRun(g: Graph, parts: seq<Partition>, sigs: seq<Signature>, env: set<Name>, strict: bool)
    requires |sigs| == |parts|
  {
    if parts == [] then g.outputs <= env
    else Fed(g, parts[0], env, strict) && NodesRun(g, parts[1..], sigs[1..], After(sigs[0], env), strict)
  }

  /** Whenever the partitions run through, every node finds what it reads and writes. */
  lemma {:induction false} RunsFeedNodes(g: Graph, parts: seq<Partition>, skips: seq<bool>, env: set<Name>)
    requires Settled(g) && |skips| == |parts| && Runs(Signatures(g, parts, skips), env, g.outputs)
    ensures NodesRun(g, parts, Signatures(g, parts, skips), env, false)
  {
    hide SignatureOf, Unmet, Reads, After, Stored, GivesBack, Drops;
    if parts != [] {
      var sigs := Signatures(g, parts, skips);
      assert sigs[1..] == Signatures(g, parts[1..], skips[1..]);
      SignatureIs(g, parts[0], Unmet(g, parts[1..]), skips[0]);
      RunsFeedNodes(g, parts[1..], skips[1..], After(sigs[0], env));
    }
  }

  /** From the unmet names, if last usage is last and storage is in place, every node finds
      every stored name that it reads or writes, with a node or without. */
  lemma {:induction false} NodesRunThrough(g: Graph, parts: seq<Partition>, skips: seq<bool>, env: set<Name>)
    requires Settled(g) && |skips| == |parts| && Unmet(g, parts) <= env
    requires LastUsageIsLast(g, parts) && StorageInPlace(g, parts)
    ensures NodesRun(g, parts, Signatures(g, parts, skips), env, true)
  {
    hide SignatureOf, UnmetBefore, Reads, Stored, GivesBack, Drops, After, LastUsageIsLast, StorageInPlace;
    if parts == [] {
      NoneLeft(g, env);
    } else {
      var rest := parts[1..];
      var sigs := Signatures(g, parts, skips);
      assert sigs[1..] == Signatures(g, rest, skips[1..]);
      SignatureIs(g, parts[0], Unmet(g, rest), skips[0]);
      StillGood(g, parts);
      forall n | n in Unmet(g, rest) ensures n in After(sigs[0], env) {
        Carried(g, parts, skips[0], env, n);
      }
      NodesRunThrough(g, rest, skips[1..], After(sigs[0], env));
    }
  }

  lemma StillGood(g: Graph, parts: seq<Partition>)
    requires Settled(g) && parts != [] && LastUsageIsLast(g, parts) && StorageInPlace(g, parts)
    ensures LastUsageIsLast(g, parts[1..]) && StorageInPlace(g, parts[1..])
  {
    hide Drops, TakesIn, Stored;
    var rest := parts[1..];
    forall k | 0 <= k < |rest| ensures rest[k] == parts[k + 1] { }
  }

  /** What is unmet after the first partition is at hand there. */
  lemma Carried(g: Graph, parts: seq<Partition>, skip: bool, env: set<Name>, n: Name)
    requires Settled(g) && parts != [] && Unmet(g, parts) <= env && n in Unmet(g, parts[1..])
    requires LastUsageIsLast(g, parts) && StorageInPlace(g, parts)
    ensures n in After(SignatureOf(g, parts[0], Unmet(g, parts[1..]), skip), env)
  {
    hide LastUsageIsLast, StorageInPlace, NoneLayout, Inputs, Returned;
    assert parts[0 + 1..] == parts[1..];
    NotFreedHere(g, parts, 0, n);
  }

  /** A buffer without storage that one partition defines and a later one uses for the last
      time: the pass resolves every name and nothing is freed too early, yet the second
      partition asks for a buffer that the first does not return. */
  lemma StoragelessRunFails()
    ensures
      var g := Graph({}, {"buf0"}, {}, map["buf0" := Buffer(true, false)], map[]);
      var parts := [[Node({"buf0"}, {}, {})], [Node({}, {}, {"buf0"})]];
      && Settled(g) && Unmet(g, parts) == {} && FreesOnlyTheDead(g, parts)
      && (forall k :: 0 <= k < |parts| ==> Resolved(g, parts[k], Unmet(g, parts[k + 1..])))
      && !Runs(Signatures(g, parts, [false, false]), {}, g.outputs)
  {
    hide Runs, Signatures;
    var g := Graph({}, {"buf0"}, {}, map["buf0" := Buffer(true, false)], map[]);
    var p, q := [Node({"buf0"}, {}, {})], [Node({}, {}, {"buf0"})];
    var parts := [p, q];
    assert p[0].outputs == {"buf0"} && q[0].lastUsage == {"buf0"};
    assert Defs(p) == {"buf0"} && Uses(p) == {} && Frees(p) == {};
    assert Defs(q) == {} && Uses(q) == {} && Frees(q) == {"buf0"};
    hide Defs, Uses, Frees;
    assert parts[1..] == [q] && parts[2..] == [] && [q][1..] == [];
    assert Inputs(g, q) == {"buf0"} && Inputs(g, p) == {};
    assert Returned(g, q, {}) == {} && Unmet(g, [q]) == {"buf0"};
    assert Passed(g, p) == {} && Real(g, "buf0") == "buf0";
    assert "buf0" in Returned(g, p, {"buf0"}) && Returned(g, p, {"buf0"}) == {"buf0"};
    assert Unmet(g, parts) == {};
    hide Passed, Real, Unmet, Returned;
    ForwardRun(g, parts, [false, false], {});
    assert "buf0" in AskedAfter(g, parts, 0);
  }

  lemma DeadNow(g: Graph, parts: seq<Partition>)
    requires Settled(g) && parts != []
    ensures FreesOnlyTheDead(g, parts) <==>
      && FreesOnlyTheDead(g, parts[1..])
      && forall n :: n in Freed(g, parts[0]) && n in Unmet(g, parts[1..]) ==>
           n in Returned(g, parts[0], Unmet(g, parts[1..]))
  {
    var rest := parts[1..];
    forall k | 0 <= k < |rest| ensures rest[k] == parts[k + 1] && rest[k + 1..] == parts[k + 2..] { }
    assert parts[0 + 1..] == rest;
    if FreesOnlyTheDead(g, rest) && forall n :: n in Freed(g, parts[0]) && n in Unmet(g, rest) ==>
        n in Returned(g, parts[0], Unmet(g, rest)) {
      forall k | 0 <= k < |parts|
        ensures forall n :: n in Freed(g, parts[k]) && n in Unmet(g, parts[k + 1..]) ==>
                n in Returned(g, parts[k], Unmet(g, parts[k + 1..]))
      {
        if k > 0 {
          assert rest[k - 1] == parts[k] && rest[k - 1 + 1..] == parts[k + 1..];
        }
      }
    }
    if FreesOnlyTheDead(g, parts) {
      forall k | 0 <= k < |rest|
        ensures forall n :: n in Freed(g, rest[k]) && n in Unmet(g, rest[k + 1..]) ==>
                n in Returned(g, rest[k], Unmet(g, rest[k + 1..]))
      {
        assert rest[k] == parts[k + 1] && rest[k + 1..] == parts[k + 1 + 1..];
      }
    }
  }

  /** No smaller start will do: a run needs every unmet name that has a node. */
  lemma LeastStart(g: Graph, parts: seq<Partition>, skips: seq<bool>, env: set<Name>)
    requires Settled(g) && |skips| == |parts| && Runs(Signatures(g, parts, skips), env, g.outputs)
    ensures forall n :: n in Unmet(g, parts) && n in g.nodes ==> n in env
  {
    forall n | n in Unmet(g, parts) && n in g.nodes ensures n in env {
      if n !in env {
        Starves(g, parts, skips, env, n);
      }
    }
  }

  // ----- Without renaming: liveness -----

  /** The unmet names obey the liveness equation: used here, or live after and not defined here. */
  lemma LivenessEquation(g: Graph, part: Partition, unmet: set<Name>)
    requires Settled(g) && g.realName == map[]
    ensures UnmetBefore(g, part, unmet) == Inputs(g, part) + (unmet - Defs(part))
    ensures forall n :: n in UnmetBefore(g, part, unmet) <==> TakesIn(g, part, n) || (n in unmet && !Defines(part, n))
  {
    forall n ensures (n in Inputs(g, part) <==> TakesIn(g, part, n)) && (n in Defs(part) <==> Defines(part, n)) {
      InputsAre(g, part, n);
    }
    hide TakesIn, Defines;
    assert forall n :: n in Returned(g, part, unmet) <==> n in Defs(part) * unmet + Passed(g, part) by {
      forall n ensures n in Returned(g, part, unmet) <==> n in Defs(part) * unmet + Passed(g, part) {
        assert Real(g, n) == n;
      }
    }
  }

  /** Needed by partition j, or by the graph when j is past the last one. */
  ghost predicate NeededAt(g: Graph, parts: seq<Partition>, n: Name, j: nat)
    requires Settled(g)
  {
    j <= |parts| && (if j == |parts| then n in g.outputs else TakesIn(g, parts[j], n))
    && forall i :: 0 <= i < j ==> !Defines(parts[i], n)
  }

  ghost predicate NeededLater(g: Graph, parts: seq<Partition>, n: Name)
    requires Settled(g)
  {
    exists j: nat :: NeededAt(g, parts, n, j)
  }

  /** A name is unmet exactly when some later use reaches back to here past no definition. */
  lemma {:induction false} UnmetIsLive(g: Graph, parts: seq<Partition>, n: Name)
    requires Settled(g) && g.realName == map[]
    ensures n in Unmet(g, parts) <==> NeededLater(g, parts, n)
  {
    hide TakesIn, Defines, UnmetBefore;
    if parts == [] {
      assert n in g.outputs ==> NeededAt(g, parts, n, 0);
    } else {
      var rest := parts[1..];
      if !TakesIn(g, parts[0], n) {
        if j: nat :| NeededAt(g, parts, n, j) {
          assert !Defines(parts[0], n) && NeededAt(g, rest, n, j - 1);
        }
      }
      LivenessEquation(g, parts[0], Unmet(g, rest));
      UnmetIsLive(g, rest, n);
      if TakesIn(g, parts[0], n) {
        assert NeededAt(g, parts, n, 0);
      } else if n in Unmet(g, rest) && !Defines(parts[0], n) {
        var j: nat :| NeededAt(g, rest, n, j);
        assert NeededAt(g, parts, n, j + 1);
      }
    }
  }

  /** Without renaming, nothing is freed too early exactly when no name that a partition
      frees is used again, by a later partition or as a graph output, before it is redefined. */
  lemma FreedTooEarlyIff(g: Graph, parts: seq<Partition>)
    requires Settled(g) && g.realName == map[]
    ensures FreesOnlyTheDead(g, parts) <==>
            forall k :: 0 <= k < |parts| ==>
              forall n :: Drops(parts[k], n) && TakesIn(g, parts[k], n) && n in g.nodes ==>
                !NeededLater(g, parts[k + 1..], n)
  {
    hide Unmet, NeededLater, Returned, Inputs, Frees, Drops, TakesIn;
    forall k, n | 0 <= k < |parts|
      ensures n in Freed(g, parts[k]) <==> Drops(parts[k], n) && TakesIn(g, parts[k], n) && n in g.nodes
    {
      InputsAre(g, parts[k], n);
    }
    hide Freed;
    forall k | 0 <= k < |parts|
      ensures (forall n :: n in Freed(g, parts[k]) && n in Unmet(g, parts[k + 1..]) ==>
              n in Returned(g, parts[k], Unmet(g, parts[k + 1..])))
         <==> forall n :: n in Freed(g, parts[k]) ==> !NeededLater(g, parts[k + 1..], n)
    {
      forall n | n in Freed(g, parts[k])
        ensures n !in Returned(g, parts[k], Unmet(g, parts[k + 1..])) &&
                (n in Unmet(g, parts[k + 1..]) <==> NeededLater(g, parts[k + 1..], n))
      {
        UnmetIsLive(g, parts[k + 1..], n);
        FreedNotReturned(g, parts[k], Unmet(g, parts[k + 1..]), n);
      }
    }
  }

  lemma FreedNotReturned(g: Graph, part: Partition, unmet: set<Name>, n: Name)
    requires Settled(g) && g.realName == map[] && n in Freed(g, part)
    ensures n !in Returned(g, part, unmet)
  {
    hide NoneLayout;
    assert forall m :: Real(g, m) == m;
  }

  /** A buffer defined here is returned only if something later needs it. */
  lemma ReturnedIsNeeded(g: Graph, parts: seq<Partition>, k: nat, n: Name)
    requires Settled(g) && g.realName == map[] && k < |parts|
    requires Defines(parts[k], n) && n in Returned(g, parts[k], Unmet(g, parts[k + 1..]))
    ensures NeededLater(g, parts[k + 1..], n)
  {
    hide Defines, NeededLater;
    ReturnedAre(g, parts[k], Unmet(g, parts[k + 1..]), n);
    UnmetIsLive(g, parts[k + 1..], n);
  }

  // ----- Buffers without storage -----

  /** No signature returns a buffer without storage, but one takes such a buffer in exactly
      when the partition frees one that an earlier partition defined. */
  lemma NoneLayoutInputs(g: Graph, part: Partition, unmet: set<Name>, skip: bool)
    requires Settled(g) && forall n :: !NoneLayout(g, n) ==> !NoneLayout(g, Real(g, n))
    ensures forall n :: n in SignatureOf(g, part, unmet, skip).outputs ==> !NoneLayout(g, n)
    ensures (exists n :: n in SignatureOf(g, part, unmet, skip).inputs && NoneLayout(g, n)) <==>
            (exists n :: n in Frees(part) && n !in Defs(part) && n in g.nodes && NoneLayout(g, n))
  {
    var s := SignatureOf(g, part, unmet, skip);
    if n :| n in Frees(part) && n !in Defs(part) && n in g.nodes && NoneLayout(g, n) {
      assert n in s.inputs;
    }
  }

  lemma NoneLayoutInputExample()
    ensures
      var g := Graph({}, {"buf0"}, {}, map["buf0" := Buffer(true, false)], map[]);
      var part := [Node({}, {}, {"buf0"})];
      Settled(g) && NoneLayout(g, "buf0") && "buf0" in SignatureOf(g, part, {}, false).inputs
  {
    var part := [Node({}, {}, {"buf0"})];
    assert "buf0" in part[0].lastUsage;
    assert Defs(part) == {};
  }
}
