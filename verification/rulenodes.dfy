/** The rule tree in memory, grown in place while it is walked. */
module RuleNodes {
  import opened RuleTrees

  /** A node of the tree; `tree` is the value of the subtree, `repr` the nodes in it. */
  class RuleNode {
    const rule: Rule
    var child: seq<RuleNode>
    ghost var tree: Tree
    ghost var repr: set<RuleNode>

    ghost predicate Valid()
      reads this, repr
      decreases repr, 0
    {
      && this in repr
      && tree.rule == rule
      && ForestOk(child, tree.kids, repr - {this})
    }

    constructor (rule: Rule)
      ensures Valid() && fresh(this) && repr == {this} && this.rule == rule && tree == Node(rule, [])
    {
      this.rule, child, repr := rule, [], {this};
      tree := Node(rule, []);
    }
  }

  /** A sibling list with the value `f` whose trees lie in `repr` and share nothing. */
  ghost predicate ForestOk(ns: seq<RuleNode>, f: seq<Tree>, repr: set<RuleNode>)
    reads repr
    decreases repr, 1
  {
    && |f| == |ns|
    && (forall i | 0 <= i < |ns| :: ns[i] in repr && ns[i].repr <= repr && ns[i].Valid() && ns[i].tree == f[i])
    && (forall i, j | 0 <= i < j < |ns| :: ns[i].repr !! ns[j].repr)
  }

  /** While the rules are loaded, every level is still in its coded form. */
  ghost predicate Coded(repr: set<RuleNode>)
    reads repr, set n | n in repr :: n.rule
  {
    forall n | n in repr :: n.rule.level == n.rule.Encoded()
  }

  /** Where the elements of `s` are once another one stands at `p`. */
  function Shifted(p: nat, i: nat): (k: int) {
    if i < p then i else i - 1
  }

  lemma ElementAt<T>(s: seq<T>, p: nat, x: T, i: nat)
    requires p <= |s| && i <= |s|
    ensures (s[..p] + [x] + s[p..])[i] == if i == p then x else s[Shifted(p, i)]
  {
  }

  lemma ForestPlus(ns: seq<RuleNode>, f: seq<Tree>, repr: set<RuleNode>, node: RuleNode, p: nat)
    requires ForestOk(ns, f, repr) && p <= |ns| && node.Valid() && node.repr !! repr
    ensures ForestOk(ns[..p] + [node] + ns[p..], f[..p] + [node.tree] + f[p..], repr + node.repr)
  {
    hide RuleNode.Valid;
    var r, g := ns[..p] + [node] + ns[p..], f[..p] + [node.tree] + f[p..];
    NodeInRepr(node);
    forall i | 0 <= i < |r|
      ensures r[i] in repr + node.repr && r[i].repr <= repr + node.repr && r[i].Valid() && r[i].tree == g[i]
    {
      ElementAt(ns, p, node, i);
      ElementAt(f, p, node.tree, i);
    }
    forall i, j | 0 <= i < j < |r| ensures r[i].repr !! r[j].repr {
      ElementAt(ns, p, node, i);
      ElementAt(ns, p, node, j);
    }
  }

  lemma NodeInRepr(node: RuleNode)
    requires node.Valid()
    ensures node in node.repr
  {
  }

  lemma Heads(ns: seq<RuleNode>, f: seq<Tree>, repr: set<RuleNode>)
    requires ForestOk(ns, f, repr)
    ensures |f| == |ns| && forall i | 0 <= i < |ns| :: ns[i] in repr && f[i].rule == ns[i].rule
  {
  }

  lemma PositionStep(f: seq<Tree>, x: Rule)
    requires f != [] && x.Encoded() <= f[0].rule.Encoded()
    ensures Position(f, x) == 1 + Position(f[1..], x)
  {
  }

  lemma PositionEnd(f: seq<Tree>, x: Rule)
    requires f == [] || x.Encoded() > f[0].rule.Encoded()
    ensures Position(f, x) == 0
  {
  }

  /** _OS_AddRule: the new node goes before the first sibling of a lower level. */
  method AddSorted(ns: seq<RuleNode>, x: Rule, ghost f: seq<Tree>, ghost repr: set<RuleNode>)
    returns (r: seq<RuleNode>, ghost repr': set<RuleNode>)
    requires ForestOk(ns, f, repr) && Coded(repr) && x.level == x.Encoded()
    ensures ForestOk(r, Inserted(f, x), repr') && repr <= repr' && fresh(repr' - repr) && Coded(repr')
  {
    hide RuleNode.Valid, ForestOk, Position;
    Heads(ns, f, repr);
    var i := 0;
    assert f[0..] == f;
    while i < |ns| && x.level <= ns[i].rule.level
      invariant i <= |ns| && Position(f, x) == i + Position(f[i..], x)
    {
      assert f[i..][1..] == f[i + 1..];
      PositionStep(f[i..], x);
      i := i + 1;
    }
    PositionEnd(f[i..], x);
    var node := new RuleNode(x);
    r := ns[..i] + [node] + ns[i..];
    repr' := repr + node.repr;
    ForestPlus(ns, f, repr, node, i);
  }

  /** How deep the walk can still go: the new rule's own leaves do not count. */
  ghost function Rank(x: Rule, t: Tree): nat {
    if t.rule.sigid == x.sigid && t.kids == [] then 0 else 1 + Ranks(x, t.kids)
  }

  ghost function Ranks(x: Rule, f: seq<Tree>): nat {
    if f == [] then 0
    else if Rank(x, f[0]) > Ranks(x, f[1..]) then Rank(x, f[0]) else Ranks(x, f[1..])
  }

  lemma {:induction false} RanksAre(x: Rule, f: seq<Tree>, i: nat)
    requires i < |f|
    ensures Rank(x, f[i]) <= Ranks(x, f)
  {
    if i > 0 {
      RanksAre(x, f[1..], i - 1);
    }
  }

  lemma {:induction false} RanksOfMore(x: Rule, f: seq<Tree>, g: seq<Tree>)
    ensures Ranks(x, f + g) == if Ranks(x, f) > Ranks(x, g) then Ranks(x, f) else Ranks(x, g)
  {
    if f == [] {
      assert f + g == g;
    } else {
      RanksOfMore(x, f[1..], g);
      assert (f + g)[1..] == f[1..] + g;
    }
  }

  /** Growing a child list just before it is walked does not make the walk longer. */
  lemma RanksOfInserted(x: Rule, kids: seq<Tree>)
    ensures Ranks(x, Inserted(kids, x)) == Ranks(x, kids)
  {
    var p := Position(kids, x);
    RanksOfMore(x, kids[..p], [Node(x, [])] + kids[p..]);
    RanksOfMore(x, [Node(x, [])], kids[p..]);
    RanksOfMore(x, kids[..p], kids[p..]);
    assert kids[..p] + kids[p..] == kids;
    assert Inserted(kids, x) == kids[..p] + ([Node(x, [])] + kids[p..]);
    assert Rank(x, Node(x, [])) == 0;
  }

  /** The new rule becomes a child of `n`. */
  method Adopt(n: RuleNode, x: Rule)
    requires n.Valid() && Coded(n.repr) && x.level == x.Encoded()
    modifies n
    ensures n.Valid() && Coded(n.repr) && n.tree == Node(n.rule, Inserted(old(n.tree).kids, x))
    ensures old(n.repr) <= n.repr && fresh(n.repr - old(n.repr))
  {
    hide Inserted;
    var child;
    ghost var repr;
    child, repr := AddSorted(n.child, x, n.tree.kids, n.repr - {n});
    n.child := child;
    n.tree := Node(n.rule, Inserted(n.tree.kids, x));
    n.repr := {n} + repr;
  }

  /** One tree of a sibling list has grown, in its own nodes; the others are as they were. */
  twostate lemma OneHasGrown(new ns: seq<RuleNode>, new f: seq<Tree>, new repr: set<RuleNode>, i: nat)
    requires old(allocated(ns) && allocated(f) && allocated(repr) && ForestOk(ns, f, repr)) && i < |ns| && |f| == |ns|
    requires forall n | n in repr && n !in old(ns[i].repr) :: unchanged(n)
    requires ns[i].Valid() && old(ns[i].repr) <= ns[i].repr
    requires forall n | n in ns[i].repr :: n in old(ns[i].repr) || !old(allocated(n))
    ensures ForestOk(ns, f[i := ns[i].tree], repr + ns[i].repr)
  {
    NodeInRepr(ns[i]);
    forall j | 0 <= j < |ns| && j != i
      ensures unchanged(ns[j]) && ns[j].Valid() && ns[j].tree == f[j]
    {
      assert ns[j].repr !! old(ns[i].repr) by {
        assert if j < i then old(ns[j].repr !! ns[i].repr) else old(ns[i].repr !! ns[j].repr);
      }
      assert forall n | n in old(ns[j].repr) :: unchanged(n);
    }
  }

  /** A node whose children were walked. */
  ghost method Renew(n: RuleNode, f: seq<Tree>, repr: set<RuleNode>)
    requires ForestOk(n.child, f, repr) && n !in repr
    modifies n`tree, n`repr
    ensures n.Valid() && n.tree == Node(n.rule, f) && n.repr == {n} + repr
  {
    n.tree := Node(n.rule, f);
    n.repr := {n} + repr;
    assert n.repr - {n} == repr;
  }

  lemma Inside(n: RuleNode)
    requires n.Valid()
    ensures n in n.repr && n.tree.rule == n.rule && |n.tree.kids| == |n.child|
    ensures ForestOk(n.child, n.tree.kids, n.repr - {n})
    ensures Coded(n.repr) ==> Coded(n.repr - {n}) && n.rule.level == n.rule.Encoded()
  {
  }

  lemma ForestAt(ns: seq<RuleNode>, f: seq<Tree>, repr: set<RuleNode>, i: nat)
    requires ForestOk(ns, f, repr) && i < |ns|
    ensures |f| == |ns| && ns[i].Valid() && ns[i].tree == f[i] && ns[i].repr <= repr
    ensures Coded(repr) ==> Coded(ns[i].repr)
  {
  }

  /** The children of a node once the walk has dealt with the node itself. */
  ghost function KidsMet(mode: Mode, x: Rule, t: Tree): seq<Tree> {
    if Everywhere(mode) && Takes(mode, t.rule, x) then Inserted(t.kids, x) else t.kids
  }

  /** Walking those is what remains of the walk at this node. */
  lemma NodeMet(mode: Mode, x: Rule, t: Tree)
    requires !EndsAt(mode, x, t)
    ensures var kids := KidsMet(mode, x, t);
      && GrownTree(mode, x, t) == Node(t.rule, Grown(mode, x, kids))
      && (AddedBelow(mode, x, t) > 0 <==> (Everywhere(mode) && Takes(mode, t.rule, x)) || Added(mode, x, kids) > 0)
      && (kids == [] ==> Grown(mode, x, kids) == [] && Added(mode, x, kids) == 0)
      && (kids != [] ==> Ranks(x, kids) < Rank(x, t))
  {
    RanksOfInserted(x, t.kids);
    GrownNone(mode, x);
    RankAbove(mode, x, t);
    if Everywhere(mode) { GrownAfterInsertion(mode, x, t.kids); }
    hide Inserted, Takes, Grown, Added, Ranks, Rank;
  }

  lemma RankAbove(mode: Mode, x: Rule, t: Tree)
    ensures t.kids != [] || t.rule.sigid != x.sigid ==> Rank(x, t) == 1 + Ranks(x, t.kids)
    ensures Everywhere(mode) && Takes(mode, t.rule, x) ==> t.rule.sigid != x.sigid
  {
  }

  /** What a walk does at a node it passes: it may put the rule there, and goes on below, through the child
      list it may just have extended. */
  method GrowNode(mode: Mode, x: Rule, n: RuleNode) returns (found: bool)
    requires n.Valid() && Coded(n.repr) && x.level == x.Encoded() && !mode.ByCategory? && !EndsAt(mode, x, n.tree)
    modifies n.repr
    ensures n.Valid() && Coded(n.repr) && old(n.repr) <= n.repr && fresh(n.repr - old(n.repr))
    ensures n.tree == GrownTree(mode, x, old(n.tree))
    ensures found <==> AddedBelow(mode, x, old(n.tree)) > 0
    decreases Rank(x, n.tree), 0
  {
    NodeMet(mode, x, n.tree);
    hide Inserted, Takes, Grown, Added, Ranks, Rank, ForestOk, RuleNode.Valid, Coded, Position, GrownTree, AddedBelow,
      EndsAt;
    Inside(n);
    found := false;
    if Everywhere(mode) && Takes(mode, n.rule, x) {
      Adopt(n, x);
      Inside(n);
      found := true;
    }
    assert n.tree == Node(n.rule, KidsMet(mode, x, old(n.tree)));
    hide KidsMet;
    if n.child != [] {
      var below := GrowBelow(mode, x, n);
      found := found || below;
    }
  }

  method GrowBelow(mode: Mode, x: Rule, n: RuleNode) returns (found: bool)
    requires n.Valid() && Coded(n.repr) && x.level == x.Encoded()
    modifies n.repr
    ensures n.Valid() && Coded(n.repr) && old(n.repr) <= n.repr && fresh(n.repr - old(n.repr))
    ensures n.tree == Node(n.rule, Grown(mode, x, old(n.tree.kids)))
    ensures found <==> Added(mode, x, old(n.tree.kids)) > 0
    decreases Ranks(x, n.tree.kids), 3
  {
    hide Inserted, Takes, Grown, Added, Ranks, Rank, ForestOk, RuleNode.Valid;
    Inside(n);
    ghost var repr;
    found, repr := AddToRule(mode, x, n.child, n.tree.kids, n.repr - {n});
    Renew(n, Grown(mode, x, n.tree.kids), repr);
  }

  /** A walk over the sibling list `f` has made `g` of it and stands before tree `i`; it put the rule under
      nodes passed so far if `found`. */
  ghost predicate WalkedTo(mode: Mode, x: Rule, f: seq<Tree>, g: seq<Tree>, i: nat, found: bool) {
    && i <= |f| == |g| && g[i..] == f[i..]
    && Grown(mode, x, f) == g[..i] + Grown(mode, x, f[i..])
    && (Added(mode, x, f) > 0 <==> found || Added(mode, x, f[i..]) > 0)
  }

  lemma WalkStarts(mode: Mode, x: Rule, f: seq<Tree>)
    ensures WalkedTo(mode, x, f, f, 0, false)
  {
    assert f[0..] == f && f[..0] == [];
  }

  lemma WalkEnds(mode: Mode, x: Rule, f: seq<Tree>, g: seq<Tree>, found: bool)
    requires WalkedTo(mode, x, f, g, |f|, found)
    ensures g == Grown(mode, x, f) && (found <==> Added(mode, x, f) > 0)
  {
    GrownNone(mode, x);
    hide Grown, Added;
    assert g[..|f|] == g && f[|f|..] == [];
  }

  /** The tree at `i` became `t`, and the walk goes on. */
  lemma WalkContinues(mode: Mode, x: Rule, f: seq<Tree>, g: seq<Tree>, i: nat, t: Tree, found: bool)
    requires WalkedTo(mode, x, f, g, i, found) && i < |f| && !EndsAt(mode, x, f[i])
    requires t == if mode.ByCategory? then f[i] else GrownTree(mode, x, f[i])
    ensures WalkedTo(mode, x, f, g[i := t], i + 1, found || (!mode.ByCategory? && AddedBelow(mode, x, f[i]) > 0))
  {
    GrownStep(mode, x, f[i..]);
    hide Grown, Added, GrownTree, AddedBelow, EndsAt;
    OneUpdated(f, g, i, t);
    OneMore(g[..i], t, Grown(mode, x, f[i + 1..]));
  }

  lemma OneUpdated(f: seq<Tree>, g: seq<Tree>, i: nat, t: Tree)
    requires i < |f| == |g| && g[i..] == f[i..]
    ensures f[i..][1..] == f[i + 1..]
    ensures g[i := t][i + 1..] == f[i + 1..] && g[i := t][..i + 1] == g[..i] + [t]
  {
    assert g[i..][1..] == f[i..][1..];
  }

  lemma OneMore(a: seq<Tree>, t: Tree, b: seq<Tree>)
    ensures a + ([t] + b) == (a + [t]) + b
  {
  }

  /** The tree at `i` takes the rule, and the walk is over. */
  lemma WalkIsOver(mode: Mode, x: Rule, f: seq<Tree>, g: seq<Tree>, i: nat, found: bool)
    requires WalkedTo(mode, x, f, g, i, found) && i < |f| && EndsAt(mode, x, f[i])
    ensures g[i := Node(f[i].rule, Inserted(f[i].kids, x))] == Grown(mode, x, f) && Added(mode, x, f) > 0
  {
    GrownStep(mode, x, f[i..]);
    hide Grown, Added, EndsAt, Inserted;
    OneUpdated(f, g, i, Node(f[i].rule, Inserted(f[i].kids, x)));
    LastUpdated(f, g, i, Node(f[i].rule, Inserted(f[i].kids, x)));
  }

  lemma LastUpdated(f: seq<Tree>, g: seq<Tree>, i: nat, t: Tree)
    requires i < |f| == |g| && g[i..] == f[i..]
    ensures g[i := t] == g[..i] + ([t] + f[i..][1..])
  {
    assert g[i..][1..] == f[i..][1..];
    assert g[i := t] == g[..i] + [t] + g[i + 1..];
  }

  /** _AddtoRule: it walks the siblings, and below each its child list. */
  method AddToRule(mode: Mode, x: Rule, ns: seq<RuleNode>, ghost f: seq<Tree>, ghost repr: set<RuleNode>)
    returns (found: bool, ghost repr': set<RuleNode>)
    requires ForestOk(ns, f, repr) && Coded(repr) && x.level == x.Encoded()
    modifies repr
    ensures ForestOk(ns, Grown(mode, x, f), repr') && Coded(repr') && repr <= repr' && fresh(repr' - repr)
    ensures found <==> Added(mode, x, f) > 0
    decreases Ranks(x, f), 2
  {
    found, repr' := false, repr;
    ghost var g := f;
    WalkStarts(mode, x, f);
    Heads(ns, f, repr);
    hide Grown, Added, Ranks, ForestOk, Coded, WalkedTo, EndsAt, Takes, Inserted;
    var i := 0;
    while i < |ns|
      invariant i <= |ns| == |f| && WalkedTo(mode, x, f, g, i, found)
      invariant ForestOk(ns, g, repr') && Coded(repr') && repr <= repr' && fresh(repr' - repr)
    {
      var over;
      over, found, g, repr' := WalkOne(mode, x, ns, f, g, repr', i, found);
      if over {
        return;
      }
      i := i + 1;
    }
    WalkEnds(mode, x, f, g, found);
  }

  /** One round of that walk, at the sibling `i`. */
  method WalkOne(mode: Mode, x: Rule, ns: seq<RuleNode>, ghost f: seq<Tree>, ghost g: seq<Tree>,
                 ghost repr: set<RuleNode>, i: nat, before: bool)
    returns (over: bool, found: bool, ghost g': seq<Tree>, ghost repr': set<RuleNode>)
    requires i < |ns| == |f| && WalkedTo(mode, x, f, g, i, before)
    requires ForestOk(ns, g, repr) && Coded(repr) && x.level == x.Encoded()
    modifies repr
    ensures if over then g' == Grown(mode, x, f) && found && Added(mode, x, f) > 0
      else WalkedTo(mode, x, f, g', i + 1, found)
    ensures ForestOk(ns, g', repr') && Coded(repr') && repr <= repr' && fresh(repr' - repr)
    decreases Ranks(x, f), 1
  {
    RanksAre(x, f, i);
    WalkedHere(mode, x, f, g, i, before);
    hide Takes, Grown, Added, Ranks, Rank, RuleNode.Valid, ForestOk, WalkedTo, GrownTree, AddedBelow, Inserted;
    ForestAt(ns, g, repr, i);
    Inside(ns[i]);
    over, found, g', repr' := false, before, g, repr;
    if !Everywhere(mode) && Takes(mode, ns[i].rule, x) {
      Adopt(ns[i], x);
      OneHasGrown(ns, g, repr, i);
      WalkIsOver(mode, x, f, g, i, before);
      g', repr' := g[i := ns[i].tree], repr + ns[i].repr;
      over, found := true, true;
    } else if mode.ByCategory? {
      WalkContinues(mode, x, f, g, i, f[i], before);
      assert g[i := f[i]] == g;
    } else {
      found := GrowNode(mode, x, ns[i]);
      OneHasGrown(ns, g, repr, i);
      WalkContinues(mode, x, f, g, i, ns[i].tree, before);
      g', repr' := g[i := ns[i].tree], repr + ns[i].repr;
      found := before || found;
    }
  }

  lemma WalkedHere(mode: Mode, x: Rule, f: seq<Tree>, g: seq<Tree>, i: nat, found: bool)
    requires WalkedTo(mode, x, f, g, i, found) && i < |f|
    ensures |g| == |f| && g[i] == f[i]
  {
    assert g[i..][0] == f[i..][0];
  }
}
