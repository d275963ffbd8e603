/**
  The collapsing printer of module trees (model_inspection.py).  Numbered children with the
  same signature are printed once, as "N x"; that loses nothing only because the signature
  determines the whole subtree.
 */
module ModelInspection {
  import opened Options
  import opened Text
  import opened IndexRanges

  /** A module: its info line and its named children in order. */
  datatype Tree = Tree(info: string, kids: seq<Child>)
  datatype Child = Child(name: string, tree: Tree)

  /** Names are attribute names: not empty, no dot, colon or newline; info is one line. */
  ghost predicate WellFormed(t: Tree) {
    Lacks(t.info, '\n') && forall k :: 0 <= k < |t.kids| ==> GoodName(t.kids[k].name) && WellFormed(t.kids[k].tree)
  }

  ghost predicate GoodName(n: string) { n != "" && Lacks(n, '.') && Lacks(n, ':') && Lacks(n, '\n') }

  // ----- Signatures -----

  /** A module met on the way, under the names that lead to it. */
  datatype Entry = Entry(path: seq<string>, info: string)

  /** named_modules: the module itself, then each child's modules, depth first. */
  function Modules(t: Tree, path: seq<string>): seq<Entry>
    decreases t, 1
  {
    [Entry(path, t.info)] + Descend(t, 0, path)
  }

  function Descend(t: Tree, k: nat, path: seq<string>): seq<Entry>
    requires k <= |t.kids|
    decreases t, 0, |t.kids| - k
  {
    if k == |t.kids| then []
    else Modules(t.kids[k].tree, path + [t.kids[k].name]) + Descend(t, k + 1, path)
  }

  function Line(e: Entry): string { Join('.', e.path) + ":" + e.info }

  function Lines(es: seq<Entry>): (r: seq<string>)
    ensures |r| == |es|
  {
    seq(|es|, k requires 0 <= k < |es| => Line(es[k]))
  }

  /** _get_child_signature. */
  function Signature(t: Tree): string { Join('\n', Lines(Modules(t, []))) }

  // ----- The list of modules determines the tree -----

  /** e lies strictly below path. */
  ghost predicate Below(e: Entry, path: seq<string>) { |e.path| > |path| && e.path[..|path|] == path }

  ghost predicate Ends(rest: seq<Entry>, path: seq<string>) { rest != [] ==> !Below(rest[0], path) }

  /** Two trees listed from the same path, each followed by something not below it, that
      give the same list, are the same tree with the same rest. */
  lemma {:induction false} ModulesDetermine(t: Tree, u: Tree, path: seq<string>, r: seq<Entry>, s: seq<Entry>)
    requires Modules(t, path) + r == Modules(u, path) + s && Ends(r, path) && Ends(s, path)
    ensures t == u && r == s
    decreases t, 1
  {
    var a, b := Descend(t, 0, path) + r, Descend(u, 0, path) + s;
    assert Modules(t, path) + r == [Entry(path, t.info)] + a;
    assert Modules(u, path) + s == [Entry(path, u.info)] + b;
    assert ([Entry(path, t.info)] + a)[0] == ([Entry(path, u.info)] + b)[0];
    assert a == ([Entry(path, t.info)] + a)[1..] == ([Entry(path, u.info)] + b)[1..] == b;
    KidsDetermine(t, u, 0, 0, path, r, s);
    assert t.kids[0..] == t.kids && u.kids[0..] == u.kids;
  }

  lemma {:induction false} KidsDetermine(t: Tree, u: Tree, j: nat, k: nat, path: seq<string>, r: seq<Entry>,
                                         s: seq<Entry>)
    requires j <= |t.kids| && k <= |u.kids|
    requires Descend(t, j, path) + r == Descend(u, k, path) + s && Ends(r, path) && Ends(s, path)
    ensures t.kids[j..] == u.kids[k..] && r == s
    decreases t, 0, |t.kids| - j
  {
    if j == |t.kids| || k == |u.kids| {
      assert j == |t.kids| ==> Descend(t, j, path) + r == r;
      assert k == |u.kids| ==> Descend(u, k, path) + s == s;
      if j < |t.kids| { HeadBelow(t, j, path, r); }
      if k < |u.kids| { HeadBelow(u, k, path, s); }
    } else {
      var x, y := t.kids[j], u.kids[k];
      var r', s' := Descend(t, j + 1, path) + r, Descend(u, k + 1, path) + s;
      assert Descend(t, j, path) + r == Modules(x.tree, path + [x.name]) + r';
      assert Descend(u, k, path) + s == Modules(y.tree, path + [y.name]) + s';
      HeadBelow(t, j, path, r);
      HeadBelow(u, k, path, s);
      assert path + [x.name] == path + [y.name];
      assert (path + [x.name])[|path|] == (path + [y.name])[|path|];
      NextEnds(t, j + 1, path, r, x.name);
      NextEnds(u, k + 1, path, s, y.name);
      ModulesDetermine(x.tree, y.tree, path + [x.name], r', s');
      KidsDetermine(t, u, j + 1, k + 1, path, r, s);
      assert t.kids[j..] == [x] + t.kids[j + 1..] && u.kids[k..] == [y] + u.kids[k + 1..];
    }
  }

  /** The next child's list starts with the child itself. */
  lemma HeadBelow(t: Tree, k: nat, path: seq<string>, r: seq<Entry>)
    requires k < |t.kids|
    ensures
      var es := Descend(t, k, path) + r;
      es != [] && es[0].path == path + [t.kids[k].name] && Below(es[0], path)
  {
    assert Modules(t.kids[k].tree, path + [t.kids[k].name])[0].path == path + [t.kids[k].name];
  }

  /** What follows a child is not below it. */
  lemma NextEnds(t: Tree, k: nat, path: seq<string>, r: seq<Entry>, name: string)
    requires k <= |t.kids| && Ends(r, path)
    ensures Ends(Descend(t, k, path) + r, path + [name])
  {
    var es := Descend(t, k, path) + r;
    if k < |t.kids| {
      HeadBelow(t, k, path, r);
    } else if r != [] {
      BelowParent(r[0], path, name);
    }
  }

  lemma BelowParent(e: Entry, path: seq<string>, name: string)
    ensures Below(e, path + [name]) ==> Below(e, path)
  {
    if Below(e, path + [name]) {
      assert e.path[..|path|] == e.path[..|path| + 1][..|path|];
    }
  }

  // ----- The text determines the list -----

  ghost predicate GoodEntry(e: Entry) {
    Lacks(e.info, '\n') && forall k :: 0 <= k < |e.path| ==> GoodName(e.path[k])
  }

  lemma {:induction false} GoodModules(t: Tree, path: seq<string>)
    requires WellFormed(t) && forall k :: 0 <= k < |path| ==> GoodName(path[k])
    ensures forall j :: 0 <= j < |Modules(t, path)| ==> GoodEntry(Modules(t, path)[j])
    decreases t, 1
  {
    GoodDescend(t, 0, path);
  }

  lemma {:induction false} GoodDescend(t: Tree, k: nat, path: seq<string>)
    requires k <= |t.kids| && WellFormed(t) && forall i :: 0 <= i < |path| ==> GoodName(path[i])
    ensures forall j :: 0 <= j < |Descend(t, k, path)| ==> GoodEntry(Descend(t, k, path)[j])
    decreases t, 0, |t.kids| - k
  {
    if k < |t.kids| {
      GoodModules(t.kids[k].tree, path + [t.kids[k].name]);
      GoodDescend(t, k + 1, path);
    }
  }

  lemma LineLacks(e: Entry)
    requires GoodEntry(e)
    ensures Lacks(Line(e), '\n') && Lacks(Join('.', e.path), ':')
  {
    JoinLacks('.', e.path, '\n');
    JoinLacks('.', e.path, ':');
  }

  /** Dotted names are told apart: names have no dot and are not empty. */
  lemma PathsDetermine(p: seq<string>, q: seq<string>)
    requires (forall k :: 0 <= k < |p| ==> GoodName(p[k])) && (forall k :: 0 <= k < |q| ==> GoodName(q[k]))
    requires Join('.', p) == Join('.', q)
    ensures p == q
  {
    if p == [] || q == [] {
      assert |p| > 0 ==> Join('.', p) != "" by { if |p| > 0 { JoinNotEmpty(p); } }
      assert |q| > 0 ==> Join('.', q) != "" by { if |q| > 0 { JoinNotEmpty(q); } }
    } else {
      SplitJoin('.', p);
      SplitJoin('.', q);
    }
  }

  lemma JoinNotEmpty(p: seq<string>)
    requires p != [] && p[0] != ""
    ensures Join('.', p) != ""
  {
  }

  lemma LinesDetermine(d: Entry, e: Entry)
    requires GoodEntry(d) && GoodEntry(e) && Line(d) == Line(e)
    ensures d == e
  {
    LineLacks(d);
    LineLacks(e);
    var p, q := Join('.', d.path), Join('.', e.path);
    FirstIs(p, ':', d.info);
    FirstIs(q, ':', e.info);
    assert p == Line(d)[..|p|] && d.info == Line(d)[|p| + 1..];
    assert q == Line(e)[..|q|] && e.info == Line(e)[|q| + 1..];
    PathsDetermine(d.path, e.path);
  }

  /** Equal signatures mean equal trees. */
  lemma SignatureDetermines(t: Tree, u: Tree)
    requires WellFormed(t) && WellFormed(u) && Signature(t) == Signature(u)
    ensures t == u
  {
    hide Line;
    var a, b := Modules(t, []), Modules(u, []);
    GoodModules(t, []);
    GoodModules(u, []);
    forall k | 0 <= k < |a| ensures Lacks(Lines(a)[k], '\n') { LineLacks(a[k]); }
    forall k | 0 <= k < |b| ensures Lacks(Lines(b)[k], '\n') { LineLacks(b[k]); }
    SplitJoin('\n', Lines(a));
    SplitJoin('\n', Lines(b));
    forall k | 0 <= k < |a| ensures a[k] == b[k] {
      assert Lines(a)[k] == Lines(b)[k];
      LinesDetermine(a[k], b[k]);
    }
    assert a == b;
    ModulesDetermine(t, u, [], [], []) by {
      assert a + [] == a && b + [] == b;
    }
  }

  /** The condition on colons is needed: a name that contains one and an info line that
      contains one give two different trees the same signature. */
  lemma ColonsCollide()
    ensures
      var t := Tree("X()", [Child("a:L(", Tree("M()", []))]);
      var u := Tree("X()", [Child("a", Tree("L(:M()", []))]);
      t != u && Signature(t) == Signature(u)
  {
    var (a, b) := (Tree("M()", []), Tree("L(:M()", []));
    ColonLines("a:L(", a);
    ColonLines("a", b);
    assert "a:L(" + ":" + "M()" == "a" + ":" + "L(:M()";
  }

  lemma ColonLines(name: string, t: Tree)
    requires t.kids == []
    ensures Signature(Tree("X()", [Child(name, t)])) == Join('\n', [":X()", name + ":" + t.info])
  {
    var u := Tree("X()", [Child(name, t)]);
    assert Descend(u, 1, []) == [] && Descend(t, 0, [name]) == [];
    assert [] + [name] == [name];
    assert Modules(t, [name]) == [Entry([name], t.info)];
    assert Descend(u, 0, []) == [Entry([name], t.info)];
    assert Modules(u, []) == [Entry([], "X()"), Entry([name], t.info)];
    assert Join('.', []) == "" && Join('.', [name]) == name;
    assert Line(Entry([], "X()")) == ":X()" && Line(Entry([name], t.info)) == name + ":" + t.info;
    assert Lines(Modules(u, [])) == [":X()", name + ":" + t.info];
  }

  // ----- Grouping -----

  /** A numbered child and its place among the children. */
  datatype Numbered = Numbered(index: int, at: nat, tree: Tree)

  datatype Group = Group(signature: string, members: seq<Numbered>)

  /** The children with a signature, in order. */
  ghost function WithSignature(ns: seq<Numbered>, sig: string): seq<Numbered> {
    if ns == [] then []
    else
      var n := |ns| - 1;
      WithSignature(ns[..n], sig) + if Signature(ns[n].tree) == sig then [ns[n]] else []
  }

  ghost predicate HasGroup(groups: seq<Group>, sig: string) {
    exists k :: 0 <= k < |groups| && groups[k].signature == sig
  }

  /** The groups are the classes of equal signature: none twice, none empty, each complete
      and in order. */
  ghost predicate Grouped(ns: seq<Numbered>, groups: seq<Group>) {
    && (forall j, k :: 0 <= j < k < |groups| ==> groups[j].signature != groups[k].signature)
    && (forall k :: 0 <= k < |groups| ==>
          groups[k].members != [] && groups[k].members == WithSignature(ns, groups[k].signature))
    && (forall i :: 0 <= i < |ns| ==> HasGroup(groups, Signature(ns[i].tree)))
  }

  /** The group of a signature, or the number of groups. */
  function Position(groups: seq<Group>, sig: string): (k: nat)
    ensures k <= |groups| && (k < |groups| ==> groups[k].signature == sig)
    ensures forall j :: 0 <= j < k ==> groups[j].signature != sig
  {
    if groups == [] || groups[0].signature == sig then 0 else 1 + Position(groups[1..], sig)
  }

  /** A child joins the group of its signature or opens one. */
  function File(groups: seq<Group>, m: Numbered): seq<Group> {
    var sig := Signature(m.tree);
    var k := Position(groups, sig);
    if k == |groups| then groups + [Group(sig, [m])] else groups[k := Group(sig, groups[k].members + [m])]
  }

  function Groups(ns: seq<Numbered>): seq<Group> {
    if ns == [] then [] else File(Groups(ns[..|ns| - 1]), ns[|ns| - 1])
  }

  lemma {:induction false} GroupsAre(ns: seq<Numbered>)
    ensures Grouped(ns, Groups(ns))
  {
    hide Signature, File;
    if ns != [] {
      GroupsAre(ns[..|ns| - 1]);
      FileOne(ns, Groups(ns[..|ns| - 1]));
    }
  }

  lemma FileOne(ns: seq<Numbered>, groups: seq<Group>)
    requires ns != [] && Grouped(ns[..|ns| - 1], groups)
    ensures Grouped(ns, File(groups, ns[|ns| - 1]))
  {
    hide Signature;
    var i := |ns| - 1;
    var sig := Signature(ns[i].tree);
    var after := File(groups, ns[i]);
    var k := Position(groups, sig);
    assert after[k].signature == sig;
    if k == |groups| {
      NoneWith(ns[..i], groups, sig);
    }
    forall j | 0 <= j < |ns| ensures HasGroup(after, Signature(ns[j].tree)) {
      if j < i {
        assert ns[..i][j] == ns[j];
        var l :| 0 <= l < |groups| && groups[l].signature == Signature(ns[j].tree);
        assert after[l].signature == Signature(ns[j].tree);
      }
    }
  }

  lemma {:induction false} NoneWith(ns: seq<Numbered>, groups: seq<Group>, sig: string)
    requires forall i :: 0 <= i < |ns| ==> HasGroup(groups, Signature(ns[i].tree))
    requires forall k :: 0 <= k < |groups| ==> groups[k].signature != sig
    ensures WithSignature(ns, sig) == []
  {
    hide Signature;
    if ns != [] {
      var n := |ns| - 1;
      NoneWith(ns[..n], groups, sig);
      assert HasGroup(groups, Signature(ns[n].tree));
    }
  }

  /** Files every numbered child under its signature. */
  method GroupNumbered(ns: seq<Numbered>) returns (groups: seq<Group>)
    ensures groups == Groups(ns) && Grouped(ns, groups)
  {
    groups := [];
    for i := 0 to |ns|
      invariant groups == Groups(ns[..i])
    {
      groups := File(groups, ns[i]);
      assert ns[..i + 1][..i] == ns[..i];
    }
    assert ns[..|ns|] == ns;
    GroupsAre(ns);
  }

  lemma {:induction false} MembersAre(ns: seq<Numbered>, sig: string)
    ensures forall m :: m in WithSignature(ns, sig) <==> m in ns && Signature(m.tree) == sig
  {
    hide Signature;
    if ns != [] {
      MembersAre(ns[..|ns| - 1], sig);
      assert ns == ns[..|ns| - 1] + [ns[|ns| - 1]];
    }
  }

  /** All members of all groups. */
  ghost function Flat(groups: seq<Group>): multiset<Numbered> {
    if groups == [] then multiset{} else multiset(groups[0].members) + Flat(groups[1..])
  }

  /** The groups share out the numbered children: none is lost, none appears twice. */
  lemma {:induction false} GroupsPartition(ns: seq<Numbered>)
    ensures Flat(Groups(ns)) == multiset(ns)
  {
    hide Signature, File;
    if ns != [] {
      GroupsPartition(ns[..|ns| - 1]);
      FileAdds(Groups(ns[..|ns| - 1]), ns[|ns| - 1]);
      assert ns == ns[..|ns| - 1] + [ns[|ns| - 1]];
    }
  }

  lemma {:induction false} FileAdds(groups: seq<Group>, m: Numbered)
    ensures Flat(File(groups, m)) == Flat(groups) + multiset{m}
  {
    hide Signature;
    var sig := Signature(m.tree);
    var after := File(groups, m);
    if groups == [] {
      assert after[1..] == [];
    } else if groups[0].signature == sig {
      assert after[1..] == groups[1..];
    } else {
      FileAdds(groups[1..], m);
      assert after[1..] == File(groups[1..], m);
    }
  }

  /** Every member of a group is the same tree as the one that is printed for it. */
  lemma GroupIsUniform(ns: seq<Numbered>, k: nat, m: Numbered)
    requires k < |Groups(ns)| && m in Groups(ns)[k].members
    requires forall i :: 0 <= i < |ns| ==> WellFormed(ns[i].tree)
    ensures Groups(ns)[k].members != [] && m.tree == Groups(ns)[k].members[0].tree
  {
    hide Signature, WellFormed;
    GroupsAre(ns);
    var g := Groups(ns)[k];
    MembersAre(ns, g.signature);
    assert g.members[0] in g.members;
    SignatureDetermines(m.tree, g.members[0].tree);
  }

  // ----- Printing -----

  function Blanks(n: nat): (r: string)
    ensures |r| == 2 * n && forall k :: 0 <= k < |r| ==> r[k] == ' '
  {
    seq(2 * n, _ => ' ')
  }

  /** Python's lstrip, for blanks and the other white space of one line. */
  function LStrip(s: string): string {
    if s != "" && (s[0] == ' ' || s[0] == '\t') then LStrip(s[1..]) else s
  }

  /** The children whose names Python's int accepts; number is that parser. */
  function NumberedKids(number: string -> Option<int>, t: Tree, n: nat): (r: seq<Numbered>)
    requires n <= |t.kids|
    ensures forall k :: 0 <= k < |r| ==> r[k].at < |t.kids| && r[k].tree == t.kids[r[k].at].tree
  {
    if n == 0 then []
    else
      NumberedKids(number, t, n - 1) +
      match number(t.kids[n - 1].name)
      case None => []
      case Some(i) => [Numbered(i, n - 1, t.kids[n - 1].tree)]
  }

  function IndicesOf(ms: seq<Numbered>): (r: seq<int>)
    ensures |r| == |ms|
  {
    seq(|ms|, k requires 0 <= k < |ms| => ms[k].index)
  }

  /** The first line's label: the index, or the ranges and how many. */
  function Label(ms: seq<Numbered>): string
    requires ms != []
  {
    if |ms| > 1 then "(" + RangesText(IndicesOf(ms)) + "): " + Decimal(|ms|) + " x "
    else "(" + Number(ms[0].index) + "): "
  }

  /** One group: the representative's lines, with the label on the first. */
  function Block(ms: seq<Numbered>, lines: seq<string>, indent: nat): seq<string>
    requires ms != [] && lines != []
  {
    [Blanks(indent + 1) + Label(ms) + LStrip(lines[0])] + lines[1..]
  }

  /** Stable, by the first index of each group. */
  function InsertGroup(gs: seq<Group>, g: Group): (r: seq<Group>)
    ensures multiset(r) == multiset(gs) + multiset{g}
  {
    if gs == [] || Key(gs[|gs| - 1]) <= Key(g) then gs + [g]
    else
      var n := |gs| - 1;
      assert gs == gs[..n] + [gs[n]];
      InsertGroup(gs[..n], g) + [gs[n]]
  }

  function Key(g: Group): int { if g.members == [] then 0 else g.members[0].index }

  function SortGroups(gs: seq<Group>): (r: seq<Group>)
    ensures multiset(r) == multiset(gs)
  {
    if gs == [] then []
    else
      var n := |gs| - 1;
      assert gs == gs[..n] + [gs[n]];
      InsertGroup(SortGroups(gs[..n]), gs[n])
  }

  /** The blocks of the groups, given every child's own lines. */
  function Blocks(gs: seq<Group>, lines: seq<seq<string>>, indent: nat): seq<string> {
    if gs == [] then []
    else
      var ms := gs[0].members;
      (if ms != [] && ms[0].at < |lines| && lines[ms[0].at] != [] then Block(ms, lines[ms[0].at], indent) else [])
      + Blocks(gs[1..], lines, indent)
  }

  /** The lines of the children that are not numbered. */
  function Named(number: string -> Option<int>, t: Tree, lines: seq<seq<string>>, k: nat): seq<string>
    requires k <= |t.kids| == |lines|
    decreases |t.kids| - k
  {
    if k == |t.kids| then []
    else (if number(t.kids[k].name).None? then lines[k] else []) + Named(number, t, lines, k + 1)
  }

  /** _format_module_tree. */
  function Format(number: string -> Option<int>, t: Tree, name: string, indent: nat): (r: seq<string>)
    ensures r != []
    decreases t, 1
  {
    var title := Blanks(indent) + (if name == "" then t.info else "(" + name + "): " + t.info);
    if t.kids == [] then [title]
    else
      var lines := KidLines(number, t, indent);
      [title + "("]
      + Blocks(SortGroups(Groups(NumberedKids(number, t, |t.kids|))), lines, indent)
      + Named(number, t, lines, 0)
      + [Blanks(indent) + ")"]
  }

  /** Every child's own lines; a numbered child is printed without its name. */
  function KidLines(number: string -> Option<int>, t: Tree, indent: nat): (r: seq<seq<string>>)
    ensures |r| == |t.kids|
    decreases t, 0
  {
    seq(|t.kids|, k requires 0 <= k < |t.kids| =>
          Format(number, t.kids[k].tree, if number(t.kids[k].name).None? then t.kids[k].name else "", indent + 1))
  }

  ghost predicate Contains(all: seq<string>, part: seq<string>) {
    exists a: seq<string>, c: seq<string> :: all == a + part + c
  }

  lemma ContainsWithin(a: seq<string>, b: seq<string>, c: seq<string>, part: seq<string>)
    requires Contains(b, part)
    ensures Contains(a + b + c, part)
  {
    var x: seq<string>, y: seq<string> :| b == x + part + y;
    assert a + b + c == (a + x) + part + (y + c);
  }

  lemma {:induction false} BlocksContain(gs: seq<Group>, lines: seq<seq<string>>, indent: nat, g: Group)
    requires g in gs && g.members != [] && g.members[0].at < |lines| && lines[g.members[0].at] != []
    ensures Contains(Blocks(gs, lines, indent), Block(g.members, lines[g.members[0].at], indent))
  {
    hide Block;
    var b := Block(g.members, lines[g.members[0].at], indent);
    var rest := Blocks(gs[1..], lines, indent);
    if gs[0] == g {
      assert b + rest == [] + b + rest;
    } else {
      BlocksContain(gs[1..], lines, indent, g);
      var first := Blocks(gs, lines, indent)[..|Blocks(gs, lines, indent)| - |rest|];
      ContainsWithin(first, rest, [], b);
      assert first + rest + [] == Blocks(gs, lines, indent);
    }
  }

  lemma {:induction false} NumberedNames(number: string -> Option<int>, t: Tree, n: nat)
    requires n <= |t.kids|
    ensures forall k :: 0 <= k < |NumberedKids(number, t, n)| ==>
            number(t.kids[NumberedKids(number, t, n)[k].at].name).Some?
  {
    if n > 0 {
      NumberedNames(number, t, n - 1);
    }
  }

  /** The printed tree has a block for every group of numbered children. */
  lemma GroupsArePrinted(number: string -> Option<int>, t: Tree, name: string, indent: nat, k: nat)
    requires k < |Groups(NumberedKids(number, t, |t.kids|))|
    ensures
      var ms := Groups(NumberedKids(number, t, |t.kids|))[k].members;
      && ms != []
      && Contains(Format(number, t, name, indent), Block(ms, Format(number, ms[0].tree, "", indent + 1), indent))
  {
    hide Block, Groups, Signature, Blanks, SortGroups, WithSignature, Blocks, Format, KidLines;
    var ns := NumberedKids(number, t, |t.kids|);
    var g := Groups(ns)[k];
    GroupsAre(ns);
    MembersAre(ns, g.signature);
    assert g.members[0] in g.members;
    NumberedNames(number, t, |t.kids|);
    KidLine(number, t, indent, g.members[0].at);
    var lines, sorted := KidLines(number, t, indent), SortGroups(Groups(ns));
    assert g in sorted by { assert g in multiset(sorted); }
    BlocksContain(sorted, lines, indent, g);
    FormatHasBlocks(number, t, name, indent, Block(g.members, lines[g.members[0].at], indent));
  }

  lemma KidLine(number: string -> Option<int>, t: Tree, indent: nat, k: nat)
    requires k < |t.kids| && number(t.kids[k].name).Some?
    ensures KidLines(number, t, indent)[k] == Format(number, t.kids[k].tree, "", indent + 1)
  {
    hide Format;
  }

  lemma FormatHasBlocks(number: string -> Option<int>, t: Tree, name: string, indent: nat, part: seq<string>)
    requires t.kids != []
    requires
      var groups := SortGroups(Groups(NumberedKids(number, t, |t.kids|)));
      Contains(Blocks(groups, KidLines(number, t, indent), indent), part)
    ensures Contains(Format(number, t, name, indent), part)
  {
    hide Blanks, SortGroups, Groups, Blocks, KidLines, NumberedKids, Named, Contains;
    var blocks := Blocks(SortGroups(Groups(NumberedKids(number, t, |t.kids|))), KidLines(number, t, indent), indent);
    var named := Named(number, t, KidLines(number, t, indent), 0);
    var title := Blanks(indent) + (if name == "" then t.info else "(" + name + "): " + t.info);
    ContainsWithin([title + "("], blocks, named + [Blanks(indent) + ")"], part);
    assert Format(number, t, name, indent) == [title + "("] + blocks + (named + [Blanks(indent) + ")"]);
  }

  /** The block printed for a group shows each of its members: below the label it is what
      that member alone would print. */
  lemma BlockShowsMembers(number: string -> Option<int>, t: Tree, indent: nat, k: nat, m: Numbered)
    requires WellFormed(t)
    requires k < |Groups(NumberedKids(number, t, |t.kids|))| &&
             m in Groups(NumberedKids(number, t, |t.kids|))[k].members
    ensures
      var ms := Groups(NumberedKids(number, t, |t.kids|))[k].members;
      && ms != []
      && var shown := Block(ms, Format(number, ms[0].tree, "", indent + 1), indent);
         var own := Format(number, m.tree, "", indent + 1);
         shown[0] == Blanks(indent + 1) + Label(ms) + LStrip(own[0]) && shown[1..] == own[1..]
  {
    hide Format, Label, Groups, Blanks, LStrip;
    GroupIsUniform(NumberedKids(number, t, |t.kids|), k, m);
  }

  /** The label of a group reads back as exactly the indices of its members, and with more
      than one member it says how many. */
  lemma {:induction false} LabelShowsIndices(ms: seq<Numbered>)
    requires ms != [] && forall k :: 0 <= k < |ms| ==> ms[k].index >= 0
    ensures
      var text := RangesText(IndicesOf(ms));
      var spans := Spans(Sorted(IndicesOf(ms)));
      && Label(ms) == "(" + text + "): " + (if |ms| > 1 then Decimal(|ms|) + " x " else "")
      && Reads(text, spans) && multiset(Expand(spans)) == multiset(IndicesOf(ms))
  {
    hide RangesText, Reads, Expand, Spans, Decimal;
    RangesRoundTrip(IndicesOf(ms));
    var text := RangesText(IndicesOf(ms));
    if |ms| > 1 {
      assert "(" + text + "): " + Decimal(|ms|) + " x " == "(" + text + "): " + (Decimal(|ms|) + " x ");
    } else {
      assert IndicesOf(ms) == [ms[0].index];
      SingleText(ms[0].index);
      assert "(" + text + "): " + "" == "(" + text + "): ";
    }
  }

  // ----- The whole text -----

  ghost function Concat(parts: seq<seq<string>>): seq<string> {
    if parts == [] then [] else parts[0] + Concat(parts[1..])
  }

  /** The blocks of groups, one list of lines each. */
  ghost function BlockLines(number: string -> Option<int>, gs: seq<Group>, indent: nat): (r: seq<seq<string>>)
    requires forall k :: 0 <= k < |gs| ==> gs[k].members != []
    ensures |r| == |gs|
  {
    seq(|gs|, k requires 0 <= k < |gs| =>
          Block(gs[k].members, Format(number, gs[k].members[0].tree, "", indent + 1), indent))
  }

  /** The lines of some children under their names. */
  ghost function ChildLines(number: string -> Option<int>, t: Tree, named: seq<nat>, indent: nat): (r: seq<seq<string>>)
    requires forall k :: 0 <= k < |named| ==> named[k] < |t.kids|
    ensures |r| == |named|
  {
    seq(|named|, k requires 0 <= k < |named| =>
          Format(number, t.kids[named[k]].tree, t.kids[named[k]].name, indent + 1))
  }

  /** The groups by ascending first index, each once. */
  ghost predicate ByFirstIndex(gs: seq<Group>, all: seq<Group>) {
    && multiset(gs) == multiset(all) && (forall k :: 0 <= k < |gs| ==> gs[k].members != [])
    && KeysAscend(gs)
  }

  /** The children that the number parser refuses, in order. */
  ghost predicate Refused(number: string -> Option<int>, t: Tree, named: seq<nat>) {
    && (forall j, k :: 0 <= j < k < |named| ==> named[j] < named[k])
    && (forall k: nat :: k in named <==> k < |t.kids| && number(t.kids[k].name).None?)
  }

  /** A leaf is its title.  Otherwise there is an opening line, the blocks of the groups by
      ascending first index, the children with names in their order, and a closing line;
      nothing else. */
  ghost predicate LaidOut(number: string -> Option<int>, t: Tree, name: string, indent: nat, lines: seq<string>,
                          gs: seq<Group>, named: seq<nat>) {
    var title := Blanks(indent) + (if name == "" then "" else "(" + name + "): ") + t.info;
    if t.kids == [] then lines == [title]
    else
      && ByFirstIndex(gs, Groups(NumberedKids(number, t, |t.kids|))) && Refused(number, t, named)
      && (forall k :: 0 <= k < |named| ==> named[k] < |t.kids|)
      && lines == [title + "("] + Concat(BlockLines(number, gs, indent))
                  + Concat(ChildLines(number, t, named, indent)) + [Blanks(indent) + ")"]
  }

  lemma FormatLaysOut(number: string -> Option<int>, t: Tree, name: string, indent: nat)
    returns (gs: seq<Group>, named: seq<nat>)
    ensures LaidOut(number, t, name, indent, Format(number, t, name, indent), gs, named)
  {
    hide Block, Groups, Signature, Blocks, Named, KidLines, Concat, BlockLines, ChildLines, NumberedKids, SortGroups;
    hide ByFirstIndex, Refused;
    var title := Blanks(indent) + (if name == "" then "" else "(" + name + "): ") + t.info;
    assert title == Blanks(indent) + (if name == "" then t.info else "(" + name + "): " + t.info);
    var ns := NumberedKids(number, t, |t.kids|);
    gs, named := SortGroups(Groups(ns)), RefusedFrom(number, t, 0);
    RefusedAre(number, t, 0);
    SortedByIndex(ns);
    if t.kids != [] {
      var lines := KidLines(number, t, indent);
      GroupLines(number, t, indent, gs);
      BlocksAre(number, t, gs, lines, indent);
      NamedAre(number, t, lines, indent, 0);
    }
  }

  /** Every child with a name is printed under it, one level deeper. */
  lemma NamedIsPrinted(number: string -> Option<int>, t: Tree, name: string, indent: nat, k: nat)
    requires k < |t.kids| && number(t.kids[k].name).None?
    ensures Contains(Format(number, t, name, indent), Format(number, t.kids[k].tree, t.kids[k].name, indent + 1))
  {
    hide Concat, BlockLines, Contains, Format, KeysAscend;
    var gs, named := FormatLaysOut(number, t, name, indent);
    assert k in named;
    var j :| 0 <= j < |named| && named[j] == k;
    var parts := ChildLines(number, t, named, indent);
    ConcatContains(parts, j);
    var title := Blanks(indent) + (if name == "" then "" else "(" + name + "): ") + t.info;
    var before := [title + "("] + Concat(BlockLines(number, gs, indent));
    ContainsWithin(before, Concat(parts), [Blanks(indent) + ")"], parts[j]);
  }

  lemma {:induction false} ConcatContains(parts: seq<seq<string>>, j: nat)
    requires j < |parts|
    ensures Contains(Concat(parts), parts[j])
  {
    if j == 0 {
      assert Concat(parts) == [] + parts[0] + Concat(parts[1..]);
    } else {
      ConcatContains(parts[1..], j - 1);
      ContainsWithin(parts[0], Concat(parts[1..]), [], parts[j]);
      assert parts[0] + Concat(parts[1..]) + [] == Concat(parts);
    }
  }

  ghost function RefusedFrom(number: string -> Option<int>, t: Tree, k: nat): (r: seq<nat>)
    requires k <= |t.kids|
    ensures forall j :: 0 <= j < |r| ==> k <= r[j] < |t.kids|
    decreases |t.kids| - k
  {
    if k == |t.kids| then []
    else (if number(t.kids[k].name).None? then [k] else []) + RefusedFrom(number, t, k + 1)
  }

  lemma {:induction false} RefusedAre(number: string -> Option<int>, t: Tree, k: nat)
    requires k <= |t.kids|
    ensures
      var r := RefusedFrom(number, t, k);
      && (forall i, j :: 0 <= i < j < |r| ==> r[i] < r[j])
      && (forall j: nat :: j in r <==> k <= j < |t.kids| && number(t.kids[j].name).None?)
    ensures k == 0 ==> Refused(number, t, RefusedFrom(number, t, k))
    decreases |t.kids| - k
  {
    if k < |t.kids| {
      RefusedAre(number, t, k + 1);
    }
  }

  lemma SortedByIndex(ns: seq<Numbered>)
    ensures ByFirstIndex(SortGroups(Groups(ns)), Groups(ns))
  {
    hide Signature, WithSignature, Groups, SortGroups;
    GroupsAre(ns);
    Ascending(Groups(ns));
    var gs := SortGroups(Groups(ns));
    forall k | 0 <= k < |gs| ensures gs[k].members != [] {
      assert gs[k] in multiset(gs);
      assert gs[k] in Groups(ns);
    }
  }

  ghost predicate KeysAscend(gs: seq<Group>) {
    forall j, k :: 0 <= j < k < |gs| ==> Key(gs[j]) <= Key(gs[k])
  }

  lemma {:induction false} Ascending(gs: seq<Group>)
    ensures KeysAscend(SortGroups(gs))
  {
    hide KeysAscend;
    if gs != [] {
      Ascending(gs[..|gs| - 1]);
      InsertAscends(SortGroups(gs[..|gs| - 1]), gs[|gs| - 1]);
    } else {
      NoKeys();
    }
  }

  lemma NoKeys()
    ensures KeysAscend([])
  {
  }

  lemma {:induction false} InsertAscends(gs: seq<Group>, g: Group)
    requires KeysAscend(gs)
    ensures KeysAscend(InsertGroup(gs, g))
  {
    hide Key, KeysAscend;
    if gs != [] && Key(gs[|gs| - 1]) > Key(g) {
      var n := |gs| - 1;
      FrontAscends(gs);
      InsertAscends(gs[..n], g);
      var r := InsertGroup(gs[..n], g);
      forall j | 0 <= j < |r| ensures Key(r[j]) <= Key(gs[n]) {
        assert r[j] in multiset(r);
        assert r[j] in gs[..n] || r[j] == g;
      }
      AppendAscends(r, gs[n]);
    } else {
      if gs != [] {
        FrontAscends(gs);
      }
      AppendAscends(gs, g);
    }
  }

  lemma FrontAscends(gs: seq<Group>)
    requires gs != [] && KeysAscend(gs)
    ensures KeysAscend(gs[..|gs| - 1])
    ensures forall k :: 0 <= k < |gs| ==> Key(gs[k]) <= Key(gs[|gs| - 1])
    ensures forall g :: g in gs[..|gs| - 1] ==> Key(g) <= Key(gs[|gs| - 1])
  {
    hide Key;
  }

  lemma AppendAscends(gs: seq<Group>, g: Group)
    requires KeysAscend(gs) && forall k :: 0 <= k < |gs| ==> Key(gs[k]) <= Key(g)
    ensures KeysAscend(gs + [g])
  {
    hide Key;
  }

  ghost function WithKey(gs: seq<Group>, v: int): seq<Group> {
    if gs == [] then []
    else
      var n := |gs| - 1;
      WithKey(gs[..n], v) + if Key(gs[n]) == v then [gs[n]] else []
  }

  /** Groups that begin with the same index stay in the order in which they were opened. */
  lemma {:induction false} SortIsStable(gs: seq<Group>, v: int)
    ensures WithKey(SortGroups(gs), v) == WithKey(gs, v)
  {
    hide Key;
    if gs != [] {
      var n := |gs| - 1;
      SortIsStable(gs[..n], v);
      InsertIsStable(SortGroups(gs[..n]), gs[n], v);
    }
  }

  lemma {:induction false} InsertIsStable(gs: seq<Group>, g: Group, v: int)
    ensures WithKey(InsertGroup(gs, g), v) == WithKey(gs, v) + if Key(g) == v then [g] else []
  {
    hide Key, WithKey;
    if gs == [] || Key(gs[|gs| - 1]) <= Key(g) {
      LastKey(gs, g, v);
    } else {
      var n := |gs| - 1;
      InsertIsStable(gs[..n], g, v);
      LastKey(InsertGroup(gs[..n], g), gs[n], v);
      assert gs == gs[..n] + [gs[n]];
      LastKey(gs[..n], gs[n], v);
    }
  }

  lemma LastKey(gs: seq<Group>, g: Group, v: int)
    ensures WithKey(gs + [g], v) == WithKey(gs, v) + if Key(g) == v then [g] else []
  {
    hide Key;
    assert (gs + [g])[..|gs|] == gs;
  }

  /** Each group's representative has its lines among those of the children. */
  ghost predicate HasLines(number: string -> Option<int>, gs: seq<Group>, lines: seq<seq<string>>, indent: nat) {
    forall k :: 0 <= k < |gs| ==>
      && gs[k].members != [] && gs[k].members[0].at < |lines|
      && lines[gs[k].members[0].at] == Format(number, gs[k].members[0].tree, "", indent + 1)
  }

  lemma GroupLines(number: string -> Option<int>, t: Tree, indent: nat, gs: seq<Group>)
    requires gs == SortGroups(Groups(NumberedKids(number, t, |t.kids|)))
    ensures HasLines(number, gs, KidLines(number, t, indent), indent)
  {
    hide Block, Groups, Signature, SortGroups, WithSignature, Format, KidLines, NumberedKids;
    var ns := NumberedKids(number, t, |t.kids|);
    GroupsAre(ns);
    NumberedNames(number, t, |t.kids|);
    forall k | 0 <= k < |gs|
      ensures gs[k].members != [] && gs[k].members[0].at < |t.kids|
      ensures KidLines(number, t, indent)[gs[k].members[0].at] == Format(number, gs[k].members[0].tree, "", indent + 1)
    {
      assert gs[k] in multiset(gs);
      var j :| 0 <= j < |Groups(ns)| && Groups(ns)[j] == gs[k];
      MembersAre(ns, gs[k].signature);
      var m := gs[k].members[0];
      assert m in gs[k].members;
      var i :| 0 <= i < |ns| && ns[i] == m;
      KidLine(number, t, indent, m.at);
    }
  }

  lemma {:induction false} BlocksAre(number: string -> Option<int>, t: Tree, gs: seq<Group>, lines: seq<seq<string>>,
                                     indent: nat)
    requires HasLines(number, gs, lines, indent)
    ensures (forall k :: 0 <= k < |gs| ==> gs[k].members != []) &&
            Blocks(gs, lines, indent) == Concat(BlockLines(number, gs, indent))
  {
    hide Block, Format;
    if gs != [] {
      BlocksAre(number, t, gs[1..], lines, indent);
      assert BlockLines(number, gs, indent)[1..] == BlockLines(number, gs[1..], indent);
    }
  }

  lemma {:induction false} NamedAre(number: string -> Option<int>, t: Tree, lines: seq<seq<string>>, indent: nat,
                                    k: nat)
    requires k <= |t.kids| && lines == KidLines(number, t, indent)
    ensures Named(number, t, lines, k) == Concat(ChildLines(number, t, RefusedFrom(number, t, k), indent))
    decreases |t.kids| - k
  {
    hide Format, ChildLines, Concat, KidLines;
    if k < |t.kids| {
      NamedAre(number, t, lines, indent, k + 1);
      var rest := RefusedFrom(number, t, k + 1);
      assert [] + rest == rest;
      if number(t.kids[k].name).None? {
        OneMoreChild(number, t, k, rest, indent);
      }
    } else {
      NoChildren(number, t, indent);
    }
  }

  lemma NoChildren(number: string -> Option<int>, t: Tree, indent: nat)
    ensures Concat(ChildLines(number, t, [], indent)) == []
  {
  }

  lemma OneMoreChild(number: string -> Option<int>, t: Tree, k: nat, rest: seq<nat>, indent: nat)
    requires k < |t.kids| && number(t.kids[k].name).None? && forall j :: 0 <= j < |rest| ==> rest[j] < |t.kids|
    ensures Concat(ChildLines(number, t, [k] + rest, indent)) ==
            KidLines(number, t, indent)[k] + Concat(ChildLines(number, t, rest, indent))
  {
    hide Format;
    assert ChildLines(number, t, [k] + rest, indent)[1..] == ChildLines(number, t, rest, indent);
  }

  /** Children of t that the parser accepts, with their numbers and in their order. */
  ghost predicate Accepted(number: string -> Option<int>, t: Tree, r: seq<Numbered>, n: nat)
    requires n <= |t.kids|
  {
    && (forall k :: 0 <= k < |r| ==> r[k].at < n && number(t.kids[r[k].at].name) == Some(r[k].index))
    && (forall j, k :: 0 <= j < k < |r| ==> r[j].at < r[k].at)
  }

  lemma {:induction false} NumberedAre(number: string -> Option<int>, t: Tree, n: nat)
    requires n <= |t.kids|
    ensures Accepted(number, t, NumberedKids(number, t, n), n)
  {
    if n > 0 {
      NumberedAre(number, t, n - 1);
      var before := NumberedKids(number, t, n - 1);
      match number(t.kids[n - 1].name)
      case None =>
        assert NumberedKids(number, t, n) == before;
      case Some(i) =>
        assert NumberedKids(number, t, n) == before + [Numbered(i, n - 1, t.kids[n - 1].tree)];
    }
  }

  /** Every child that the parser accepts is among them. */
  lemma {:induction false} NumberedFound(number: string -> Option<int>, t: Tree, n: nat, i: nat) returns (k: nat)
    requires i < n <= |t.kids| && number(t.kids[i].name).Some?
    ensures k < |NumberedKids(number, t, n)| && NumberedKids(number, t, n)[k].at == i
  {
    if i < n - 1 {
      k := NumberedFound(number, t, n - 1, i);
    } else {
      k := |NumberedKids(number, t, n - 1)|;
    }
  }

  /** The first line of a block: indented, the label, and the representative's own title. */
  lemma BlockTitle(number: string -> Option<int>, ms: seq<Numbered>, indent: nat)
    requires ms != [] && ms[0].tree.info != "" && ms[0].tree.info[0] !in {' ', '\t'}
    ensures Block(ms, Format(number, ms[0].tree, "", indent + 1), indent)[0] ==
            Blanks(indent + 1) + Label(ms) + (ms[0].tree.info + if ms[0].tree.kids == [] then "" else "(")
  {
    hide Label, Blocks, Named, KidLines, SortGroups, Groups, NumberedKids;
    var t := ms[0].tree;
    var own := t.info + if t.kids == [] then "" else "(";
    assert Format(number, t, "", indent + 1)[0] == Blanks(indent + 1) + own;
    Stripped(Blanks(indent + 1), own);
  }

  lemma {:induction false} Stripped(b: string, s: string)
    requires (forall k :: 0 <= k < |b| ==> b[k] == ' ') && s != "" && s[0] !in {' ', '\t'}
    ensures LStrip(b + s) == s
  {
    if b != "" {
      assert (b + s)[1..] == b[1..] + s;
      Stripped(b[1..], s);
    } else {
      assert b + s == s;
    }
  }
}
