/** Taking the level code off again, over a tree in which one rule may hang in many places. */
module RuleLevels {
  import opened RuleTrees
  import opened RuleNodes

  const HIGHEST := 9900

  /** What one visit of _setlevels does to a level; levels are not negative. */
  function Decode(level: int): int {
    var l := if level == HIGHEST then 0 else level;
    if l >= 100 then l / 100 else l
  }

  function Decoded(level: int, visits: nat): int {
    if visits == 0 then level else Decode(Decoded(level, visits - 1))
  }

  lemma {:induction false} DecodedMore(level: int, a: nat, b: nat)
    ensures Decoded(Decoded(level, a), b) == Decoded(level, a + b)
  {
    if b > 0 {
      DecodedMore(level, a, b - 1);
    }
  }

  function Size(f: seq<Tree>): nat {
    if f == [] then 0 else 1 + Size(f[0].kids) + Size(f[1..])
  }

  ghost function RulesOf(f: seq<Tree>): set<Rule> {
    if f == [] then {} else {f[0].rule} + RulesOf(f[0].kids) + RulesOf(f[1..])
  }

  lemma {:induction false} NoNodesOutside(r: Rule, f: seq<Tree>)
    ensures r in RulesOf(f) <==> NodesOf(r, f) > 0
  {
    if f != [] {
      NoNodesOutside(r, f[0].kids);
      NoNodesOutside(r, f[1..]);
    }
  }

  lemma RulesOfMore(f: seq<Tree>, i: nat)
    requires i < |f|
    ensures RulesOf([f[i]]) <= RulesOf(f) && f[i].rule in RulesOf([f[i]]) && RulesOf(f[i].kids) <= RulesOf([f[i]])
    decreases i
  {
    assert [f[i]][1..] == [];
    if i > 0 {
      RulesOfMore(f[1..], i - 1);
    }
  }

  lemma SizeOfOne(t: Tree)
    ensures Size([t]) == 1 + Size(t.kids)
  {
    assert [t][1..] == [];
  }

  lemma {:induction false} SizeOfMore(f: seq<Tree>, g: seq<Tree>)
    ensures Size(f + g) == Size(f) + Size(g)
  {
    if f == [] {
      assert f + g == g;
    } else {
      SizeOfMore(f[1..], g);
      assert (f + g)[1..] == f[1..] + g;
    }
  }

  lemma SizeOfPart(f: seq<Tree>, i: nat)
    requires i < |f|
    ensures Size([f[i]]) <= Size(f)
  {
    SizeOfMore(f[..i], [f[i]]);
    SizeOfMore(f[..i + 1], f[i + 1..]);
    assert f[..i + 1] == f[..i] + [f[i]] && f == f[..i + 1] + f[i + 1..];
  }

  /** Every rule has been decoded once for every node of `f` it hangs at, starting from `levels`. */
  ghost predicate DecodedOver(rules: set<Rule>, levels: map<Rule, int>, f: seq<Tree>)
    reads rules`level
  {
    levels.Keys == rules && forall r | r in rules :: r.level == Decoded(levels[r], NodesOf(r, f))
  }

  ghost function Levels(rules: set<Rule>): map<Rule, int>
    reads rules`level
  {
    map r | r in rules :: r.level
  }

  lemma NoneDecoded(rules: set<Rule>)
    ensures DecodedOver(rules, Levels(rules), [])
  {
  }

  lemma DecodedFurther(rules: set<Rule>, levels: map<Rule, int>, now: map<Rule, int>, f: seq<Tree>, g: seq<Tree>)
    requires levels.Keys == now.Keys == rules && forall r | r in rules :: now[r] == Decoded(levels[r], NodesOf(r, f))
    requires DecodedOver(rules, now, g)
    ensures DecodedOver(rules, levels, f + g)
  {
    forall r | r in rules ensures r.level == Decoded(levels[r], NodesOf(r, f + g)) {
      NodesOfMore(r, f, g);
      DecodedMore(levels[r], NodesOf(r, f), NodesOf(r, g));
    }
  }

  /** _setlevels: every rule is decoded once for every node it hangs at, and the nodes are counted. */
  method SetLevels(ns: seq<RuleNode>, ghost f: seq<Tree>, ghost repr: set<RuleNode>, ghost rules: set<Rule>)
    returns (count: nat)
    requires ForestOk(ns, f, repr) && RulesOf(f) <= rules
    modifies rules`level
    ensures count == Size(f)
    ensures DecodedOver(rules, old(Levels(rules)), f)
    decreases Size(f), 1
  {
    hide ForestOk, DecodedOver, RulesOf, Size, Levels, RuleNode.Valid;
    count := 0;
    ghost var levels := Levels(rules);
    NoneDecoded(rules);
    Heads(ns, f, repr);
    assert Size(f[..0]) == 0 by { EmptySize(); }
    assert f[..0] == [];
    for i := 0 to |ns|
      invariant ForestOk(ns, f, repr) && count == Size(f[..i]) && DecodedOver(rules, levels, f[..i])
    {
      ForestAt(ns, f, repr, i);
      RulesOfMore(f, i);
      SizeOfPart(f, i);
      ghost var now := Levels(rules);
      LevelsNow(rules, levels, f[..i]);
      var below := SetNode(ns[i], rules);
      DecodedFurther(rules, levels, now, f[..i], [f[i]]);
      SizeOfMore(f[..i], [f[i]]);
      assert f[..i + 1] == f[..i] + [f[i]];
      count := count + below;
    }
    assert f[..|ns|] == f;
  }

  lemma EmptySize()
    ensures Size([]) == 0
  {
  }

  lemma LevelsNow(rules: set<Rule>, levels: map<Rule, int>, f: seq<Tree>)
    requires DecodedOver(rules, levels, f)
    ensures levels.Keys == Levels(rules).Keys == rules
    ensures forall r | r in rules :: Levels(rules)[r] == Decoded(levels[r], NodesOf(r, f))
  {
  }

  /** The body of that loop, for one node and what is below it. */
  method SetNode(n: RuleNode, ghost rules: set<Rule>) returns (count: nat)
    requires n.Valid() && RulesOf([n.tree]) <= rules
    modifies rules`level
    ensures count == Size([n.tree])
    ensures DecodedOver(rules, old(Levels(rules)), [n.tree])
    decreases Size([n.tree]), 0
  {
    hide DecodedOver, Size;
    Inside(n);
    RulesOfMore([n.tree], 0);
    ghost var levels := Levels(rules);
    if n.rule.level == HIGHEST {
      n.rule.level := 0;
    }
    if n.rule.level >= 100 {
      n.rule.level := n.rule.level / 100;
    }
    ghost var now := Levels(rules);
    OneDecoded(rules, levels, now, n.rule);
    SizeOfOne(n.tree);
    NoneDecoded(rules);
    count := 1;
    SizeOfOne(n.tree);
    EmptySize();
    if n.child != [] {
      var below := SetLevels(n.child, n.tree.kids, n.repr - {n}, rules);
      count := count + below;
    }
    NodeAndBelow(rules, levels, now, n.tree);
  }

  lemma OneDecoded(rules: set<Rule>, levels: map<Rule, int>, now: map<Rule, int>, x: Rule)
    requires levels.Keys == now.Keys == rules && x in rules
    requires now[x] == Decode(levels[x]) && forall r | r in rules && r != x :: now[r] == levels[r]
    ensures forall r | r in rules :: now[r] == Decoded(levels[r], NodesOf(r, [Node(x, [])]))
  {
    assert Decoded(levels[x], 0) == levels[x];
    assert [Node(x, [])][1..] == [];
  }

  lemma NodeAndBelow(rules: set<Rule>, levels: map<Rule, int>, now: map<Rule, int>, t: Tree)
    requires levels.Keys == now.Keys == rules
    requires forall r | r in rules :: now[r] == Decoded(levels[r], NodesOf(r, [Node(t.rule, [])]))
    requires DecodedOver(rules, now, t.kids)
    ensures DecodedOver(rules, levels, [t])
  {
    forall r | r in rules ensures r.level == Decoded(levels[r], NodesOf(r, [t])) {
      assert [Node(t.rule, [])][1..] == [] && [t][1..] == [];
      DecodedMore(levels[r], NodesOf(r, [Node(t.rule, [])]), NodesOf(r, t.kids));
    }
  }

  /** The round trip. A rule gets its configured level back, at however many nodes it hangs, exactly when that
      level is at most 98, or, for a rule of accuracy 0, between 1 and 99. */
  lemma LevelRoundTrip(r: Rule)
    ensures (forall visits: nat | visits >= 1 :: Decoded(r.Encoded(), visits) == r.configured)
       <==> if r.accuracy then r.configured <= 98 else 1 <= r.configured <= 99
  {
    if (if r.accuracy then r.configured <= 98 else 1 <= r.configured <= 99) {
      forall visits: nat | visits >= 1 ensures Decoded(r.Encoded(), visits) == r.configured {
        Settled(r, visits);
      }
    } else {
      assert Decoded(r.Encoded(), 0) == r.Encoded();
      assert Decoded(r.Encoded(), 1) == Decode(r.Encoded());
      var visits := if r.accuracy && r.configured >= 100 then 2 else 1;
      assert Decoded(r.Encoded(), visits) != r.configured;
    }
  }

  lemma {:induction false} Settled(r: Rule, visits: nat)
    requires visits >= 1
    requires if r.accuracy then r.configured <= 98 else 1 <= r.configured <= 99
    ensures Decoded(r.Encoded(), visits) == r.configured
  {
    assert Decoded(r.Encoded(), 0) == r.Encoded();
    if visits > 1 {
      Settled(r, visits - 1);
    }
  }

  /** After loading and _setlevels a rule of the tree with such a level has its configured level. */
  lemma LevelsAreRestored(rules: set<Rule>, levels: map<Rule, int>, f: seq<Tree>, r: Rule)
    requires DecodedOver(rules, levels, f) && r in rules && r in RulesOf(f) && levels[r] == r.Encoded()
    requires if r.accuracy then r.configured <= 98 else 1 <= r.configured <= 99
    ensures r.level == r.configured
  {
    NoNodesOutside(r, f);
    Settled(r, NodesOf(r, f));
  }

  /** Where a rule belongs among its siblings: level 0 first, then by level, then the rules without accuracy. */
  function Class(r: Rule): int {
    if !r.accuracy then 2 else if r.configured == 0 then 0 else 1
  }

  /** The order of siblings by their coded levels is the order by class, and by configured level within one. */
  lemma SortedByClass(f: seq<Tree>, i: nat, j: nat)
    requires SortedList(f) && i < j < |f|
    requires forall k | 0 <= k < |f| ::
      var r := f[k].rule; if r.accuracy then r.configured <= 98 else 1 <= r.configured <= 99
    ensures Class(f[i].rule) <= Class(f[j].rule)
    ensures Class(f[i].rule) == Class(f[j].rule) ==> f[i].rule.configured >= f[j].rule.configured
  {
    assert f[i].rule.Encoded() >= f[j].rule.Encoded();
  }
}
