/**
 Telling rules to feed the group list of a rule that watches their group: a rule gets that list once for every
 place of the tree where it hangs.
 */
module RuleMarks {
  import opened Events
  import opened HistoryRuns
  import opened RuleTrees
  import opened RuleNodes
  import opened RuleLevels

  /** The walk appended `watcher` for every node of `f` with an accepted group. */
  ghost predicate MarkedOver(rules: set<Rule>, was: map<Rule, seq<int>>, accepts: string -> bool, watcher: int,
                             f: seq<Tree>)
    reads rules`watchers
  {
    was.Keys == rules && forall r | r in rules :: r.watchers == was[r] + Copies(watcher, Marks(accepts, r, f))
  }

  ghost function Marks(accepts: string -> bool, r: Rule, f: seq<Tree>): nat {
    if accepts(r.group) then NodesOf(r, f) else 0
  }

  ghost function Watchers(rules: set<Rule>): map<Rule, seq<int>>
    reads rules`watchers
  {
    map r | r in rules :: r.watchers
  }

  lemma NoneMarked(rules: set<Rule>, accepts: string -> bool, watcher: int)
    ensures MarkedOver(rules, Watchers(rules), accepts, watcher, [])
  {
  }

  lemma CopiesMore(x: int, a: nat, b: nat)
    ensures Copies(x, a) + Copies(x, b) == Copies(x, a + b)
  {
  }

  lemma MarkedFurther(rules: set<Rule>, was: map<Rule, seq<int>>, now: map<Rule, seq<int>>, accepts: string -> bool,
                      watcher: int, f: seq<Tree>, g: seq<Tree>)
    requires was.Keys == now.Keys == rules
    requires forall r | r in rules :: now[r] == was[r] + Copies(watcher, Marks(accepts, r, f))
    requires MarkedOver(rules, now, accepts, watcher, g)
    ensures MarkedOver(rules, was, accepts, watcher, f + g)
  {
    hide NodesOf;
    forall r | r in rules ensures r.watchers == was[r] + Copies(watcher, Marks(accepts, r, f + g)) {
      NodesOfMore(r, f, g);
      CopiesMore(watcher, Marks(accepts, r, f), Marks(accepts, r, g));
    }
  }

  lemma WatchersNow(rules: set<Rule>, was: map<Rule, seq<int>>, accepts: string -> bool, watcher: int, f: seq<Tree>)
    requires MarkedOver(rules, was, accepts, watcher, f)
    ensures was.Keys == Watchers(rules).Keys == rules
    ensures forall r | r in rules :: Watchers(rules)[r] == was[r] + Copies(watcher, Marks(accepts, r, f))
  {
  }

  /** OS_MarkGroup */
  method MarkGroup(ns: seq<RuleNode>, accepts: string -> bool, watcher: int, ghost f: seq<Tree>,
                   ghost repr: set<RuleNode>, ghost rules: set<Rule>)
    requires ForestOk(ns, f, repr) && RulesOf(f) <= rules
    modifies rules`watchers
    ensures MarkedOver(rules, old(Watchers(rules)), accepts, watcher, f)
    decreases Size(f), 1
  {
    hide ForestOk, MarkedOver, RulesOf, Size, Watchers, RuleNode.Valid;
    ghost var was := Watchers(rules);
    NoneMarked(rules, accepts, watcher);
    Heads(ns, f, repr);
    assert f[..0] == [];
    for i := 0 to |ns|
      invariant ForestOk(ns, f, repr) && MarkedOver(rules, was, accepts, watcher, f[..i])
    {
      ForestAt(ns, f, repr, i);
      RulesOfMore(f, i);
      SizeOfPart(f, i);
      ghost var now := Watchers(rules);
      WatchersNow(rules, was, accepts, watcher, f[..i]);
      MarkNode(ns[i], accepts, watcher, rules);
      MarkedFurther(rules, was, now, accepts, watcher, f[..i], [f[i]]);
      assert f[..i + 1] == f[..i] + [f[i]];
    }
    assert f[..|ns|] == f;
  }

  /** The body of that loop, for one node and what is below it. */
  method MarkNode(n: RuleNode, accepts: string -> bool, watcher: int, ghost rules: set<Rule>)
    requires n.Valid() && RulesOf([n.tree]) <= rules
    modifies rules`watchers
    ensures MarkedOver(rules, old(Watchers(rules)), accepts, watcher, [n.tree])
    decreases Size([n.tree]), 0
  {
    hide MarkedOver, Size;
    Inside(n);
    RulesOfMore([n.tree], 0);
    SizeOfOne(n.tree);
    ghost var was := Watchers(rules);
    if accepts(n.rule.group) {
      n.rule.watchers := n.rule.watchers + [watcher];
    }
    ghost var now := Watchers(rules);
    OneMarked(rules, was, now, accepts, watcher, n.rule);
    if n.child != [] {
      MarkGroup(n.child, accepts, watcher, n.tree.kids, n.repr - {n}, rules);
    } else {
      NoneMarked(rules, accepts, watcher);
    }
    NodeAndBelowMarked(rules, was, now, accepts, watcher, n.tree);
  }

  lemma OneMarked(rules: set<Rule>, was: map<Rule, seq<int>>, now: map<Rule, seq<int>>, accepts: string -> bool,
                  watcher: int, x: Rule)
    requires was.Keys == now.Keys == rules && x in rules
    requires now[x] == (if accepts(x.group) then was[x] + [watcher] else was[x])
    requires forall r | r in rules && r != x :: now[r] == was[r]
    ensures forall r | r in rules :: now[r] == was[r] + Copies(watcher, Marks(accepts, r, [Node(x, [])]))
  {
    assert [Node(x, [])][1..] == [];
    assert Copies(watcher, 0) == [] && Copies(watcher, 1) == [watcher];
    forall r | r in rules ensures was[r] + [] == was[r] && NodesOf(r, [Node(x, [])]) == if r == x then 1 else 0 {
    }
  }

  lemma NodeAndBelowMarked(rules: set<Rule>, was: map<Rule, seq<int>>, now: map<Rule, seq<int>>,
                           accepts: string -> bool, watcher: int, t: Tree)
    requires was.Keys == now.Keys == rules
    requires forall r | r in rules :: now[r] == was[r] + Copies(watcher, Marks(accepts, r, [Node(t.rule, [])]))
    requires MarkedOver(rules, now, accepts, watcher, t.kids)
    ensures MarkedOver(rules, was, accepts, watcher, [t])
  {
    MarkedFurther(rules, was, now, accepts, watcher, [Node(t.rule, [])], t.kids);
    forall r | r in rules ensures r.watchers == was[r] + Copies(watcher, Marks(accepts, r, [t])) {
      SameNodes(r, t);
      assert Marks(accepts, r, [t]) == Marks(accepts, r, [Node(t.rule, [])] + t.kids) by { hide NodesOf; }
    }
  }

  lemma SameNodes(r: Rule, t: Tree)
    ensures NodesOf(r, [t]) == NodesOf(r, [Node(t.rule, [])] + t.kids)
  {
    NodesOfMore(r, [Node(t.rule, [])], t.kids);
    assert [t][1..] == [] && [Node(t.rule, [])][1..] == [];
  }

  /** A rule that fed no list twice does so afterwards exactly if its group is watched and it hangs at several
      nodes: then its events are listed once for each. */
  lemma SeveralPlacesRepeat(rules: set<Rule>, was: map<Rule, seq<int>>, accepts: string -> bool, watcher: int,
                            f: seq<Tree>, r: Rule)
    requires MarkedOver(rules, was, accepts, watcher, f) && r in rules && Distinct(was[r]) && watcher !in was[r]
    ensures Distinct(r.watchers) <==> !accepts(r.group) || NodesOf(r, f) <= 1
  {
    var n := |was[r]|;
    if accepts(r.group) && NodesOf(r, f) > 1 {
      assert r.watchers[n] == watcher && r.watchers[n + 1] == watcher;
    }
  }
}
