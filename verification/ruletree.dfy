/**
 The rule tree: rules hang under every rule that matches what they depend on, siblings are sorted by
 level, and levels are stored in a coded form while the tree is built.
 */
module RuleTrees {

  class Rule {
    const sigid: int
    const category: int
    const group: string
    const configured: nat
    const accuracy: bool
    const noAlert: bool
    var level: int
    var firedTimes: nat
    var watchers: seq<int>

    /** The level as the loader stores it: level 0 sorts first, rules without accuracy sort last. */
    function Encoded(): (l: int)
      ensures l >= 0
    {
      var l := if configured == 0 then 99 else configured;
      if accuracy then l * 100 else l
    }

    /** The end of the loading of one rule in Rules_OP_ReadRules. */
    constructor (sigid: int, category: int, group: string, configured: nat, accuracy: bool, noAlert: bool)
      ensures this.sigid == sigid && this.category == category && this.group == group
      ensures this.configured == configured && this.accuracy == accuracy && this.noAlert == noAlert
      ensures level == Encoded() && firedTimes == 0 && watchers == []
    {
      this.sigid, this.category, this.group := sigid, category, group;
      this.configured, this.accuracy, this.noAlert := configured, accuracy, noAlert;
      level, firedTimes, watchers := configured, 0, [];
      new;
      if level == 0 {
        level := 99;
      }
      if accuracy {
        level := level * 100;
      }
    }
  }

  datatype Tree = Node(rule: Rule, kids: seq<Tree>)

  /** What a new rule depends on; `accepts` is the word match of a group list. */
  datatype Mode = BySid(sid: int) | ByGroup(accepts: string -> bool) | ByLevel(level: int) | ByCategory(category: int)

  predicate Takes(mode: Mode, r: Rule, x: Rule) {
    match mode
    case BySid(sid) => r.sigid == sid
    case ByGroup(accepts) => accepts(r.group) && r.sigid != x.sigid
    case ByLevel(level) => r.Encoded() >= level && r.sigid != x.sigid
    case ByCategory(category) => r.category == category
  }

  /** How many siblings stay before a new one. */
  function Position(kids: seq<Tree>, x: Rule): (p: nat)
    ensures p <= |kids|
    ensures forall i | 0 <= i < p :: kids[i].rule.Encoded() >= x.Encoded()
    ensures p < |kids| ==> kids[p].rule.Encoded() < x.Encoded()
  {
    if kids == [] || kids[0].rule.Encoded() < x.Encoded() then 0 else 1 + Position(kids[1..], x)
  }

  function Inserted(kids: seq<Tree>, x: Rule): seq<Tree> {
    var p := Position(kids, x);
    kids[..p] + [Node(x, [])] + kids[p..]
  }

  /** A rule that depends on a group or a level goes under every node that has it, wherever that is. A rule
      that depends on a signature goes under the first such node of every sibling list that is reached; one
      that depends on a category under the first top node of that category. */
  function Grown(mode: Mode, x: Rule, f: seq<Tree>): (r: seq<Tree>)
    ensures |r| == |f|
  {
    if f == [] then []
    else
      var t := f[0];
      if mode.BySid? && Takes(mode, t.rule, x) then [Node(t.rule, Inserted(t.kids, x))] + f[1..]
      else if mode.ByCategory? then
        if Takes(mode, t.rule, x) then [Node(t.rule, Inserted(t.kids, x))] + f[1..] else [t] + Grown(mode, x, f[1..])
      else
        var kids := Grown(mode, x, t.kids);
        [Node(t.rule, if !mode.BySid? && Takes(mode, t.rule, x) then Inserted(kids, x) else kids)]
          + Grown(mode, x, f[1..])
  }

  /** The old nodes stay where they were. */
  lemma {:induction false} GrownKeepsRules(mode: Mode, x: Rule, f: seq<Tree>)
    ensures forall i | 0 <= i < |f| :: Grown(mode, x, f)[i].rule == f[i].rule
  {
    hide Inserted, Takes;
    if f != [] {
      GrownKeepsRules(mode, x, f[1..]);
      var r, rest := Grown(mode, x, f), Grown(mode, x, f[1..]);
      assert r[0].rule == f[0].rule;
      assert r[1..] == f[1..] || r[1..] == rest;
      forall i | 0 < i < |f| ensures r[i].rule == f[i].rule {
        assert r[i] == r[1..][i - 1] && f[i] == f[1..][i - 1];
      }
    }
  }

  predicate Everywhere(mode: Mode) {
    mode.ByGroup? || mode.ByLevel?
  }

  /** Nodes that take the new rule. */
  function Takers(mode: Mode, x: Rule, f: seq<Tree>): nat {
    if f == [] then 0
    else (if Takes(mode, f[0].rule, x) then 1 else 0) + Takers(mode, x, f[0].kids) + Takers(mode, x, f[1..])
  }

  function NodesOf(x: Rule, f: seq<Tree>): nat {
    if f == [] then 0
    else (if f[0].rule == x then 1 else 0) + NodesOf(x, f[0].kids) + NodesOf(x, f[1..])
  }

  /** The forest without its nodes of one rule. */
  function Without(x: Rule, f: seq<Tree>): seq<Tree> {
    if f == [] then []
    else (if f[0].rule == x then [] else [Node(f[0].rule, Without(x, f[0].kids))]) + Without(x, f[1..])
  }

  lemma NodesOfCons(x: Rule, t: Tree, rest: seq<Tree>)
    ensures NodesOf(x, [t] + rest) == NodesOf(x, [t]) + NodesOf(x, rest)
    ensures Without(x, [t] + rest) == Without(x, [t]) + Without(x, rest)
  {
    assert ([t] + rest)[1..] == rest && [t][1..] == [];
  }

  lemma NodesOfOne(x: Rule, t: Tree)
    ensures NodesOf(x, [t]) == (if t.rule == x then 1 else 0) + NodesOf(x, t.kids)
    ensures Without(x, [t]) == if t.rule == x then [] else [Node(t.rule, Without(x, t.kids))]
  {
    assert [t][1..] == [];
  }

  lemma NodesOfNone(x: Rule)
    ensures NodesOf(x, []) == 0 && Without(x, []) == []
  {
  }

  lemma {:induction false} NodesOfMore(x: Rule, f: seq<Tree>, g: seq<Tree>)
    ensures NodesOf(x, f + g) == NodesOf(x, f) + NodesOf(x, g)
    ensures Without(x, f + g) == Without(x, f) + Without(x, g)
  {
    hide NodesOf, Without;
    if f == [] {
      NodesOfNone(x);
      assert f + g == g;
    } else {
      NodesOfMore(x, f[1..], g);
      NodesOfCons(x, f[0], f[1..]);
      NodesOfCons(x, f[0], f[1..] + g);
      assert f == [f[0]] + f[1..] && f + g == [f[0]] + (f[1..] + g);
    }
  }

  lemma NodesOfInserted(x: Rule, kids: seq<Tree>)
    ensures NodesOf(x, Inserted(kids, x)) == NodesOf(x, kids) + 1
    ensures Without(x, Inserted(kids, x)) == Without(x, kids)
  {
    NodesOfOne(x, Node(x, []));
    NodesOfNone(x);
    hide NodesOf, Without, Position;
    var p := Position(kids, x);
    NodesOfMore(x, kids[..p], [Node(x, [])] + kids[p..]);
    NodesOfMore(x, [Node(x, [])], kids[p..]);
    NodesOfMore(x, kids[..p], kids[p..]);
    assert kids[..p] + kids[p..] == kids;
    assert Inserted(kids, x) == kids[..p] + ([Node(x, [])] + kids[p..]);
  }

  /** How many nodes a walk puts the rule under. */
  function Added(mode: Mode, x: Rule, f: seq<Tree>): nat {
    if f == [] then 0
    else if mode.BySid? && Takes(mode, f[0].rule, x) then 1
    else if mode.ByCategory? then if Takes(mode, f[0].rule, x) then 1 else Added(mode, x, f[1..])
    else
      var here := if !mode.BySid? && Takes(mode, f[0].rule, x) then 1 else 0;
      here + Added(mode, x, f[0].kids) + Added(mode, x, f[1..])
  }

  /** In group or level mode these are all nodes that match. */
  lemma {:induction false} AddedIsTakers(mode: Mode, x: Rule, f: seq<Tree>)
    requires Everywhere(mode)
    ensures Added(mode, x, f) == Takers(mode, x, f)
  {
    if f != [] {
      AddedIsTakers(mode, x, f[0].kids);
      AddedIsTakers(mode, x, f[1..]);
    }
  }

  lemma {:induction false} GrownHasAdded(mode: Mode, x: Rule, f: seq<Tree>)
    ensures NodesOf(x, Grown(mode, x, f)) == NodesOf(x, f) + Added(mode, x, f)
  {
    hide Inserted, Takes;
    if f != [] {
      GrownHasAdded(mode, x, f[0].kids);
      GrownHasAdded(mode, x, f[1..]);
      NodesOfInserted(x, f[0].kids);
      NodesOfInserted(x, Grown(mode, x, f[0].kids));
    }
  }

  /** Nothing else changes: taking the new nodes away gives back the tree as it was. */
  lemma {:induction false} OnlyTheNewNodes(mode: Mode, x: Rule, f: seq<Tree>)
    requires NodesOf(x, f) == 0
    ensures Without(x, Grown(mode, x, f)) == f
  {
    if f == [] {
      NodesOfNone(x);
    } else {
      GrownStep(mode, x, f);
      var t := f[0];
      NodesOfCons(x, t, f[1..]);
      NodesOfOne(x, t);
      assert f == [t] + f[1..];
      OnlyTheNewNodes(mode, x, t.kids);
      OnlyTheNewNodes(mode, x, f[1..]);
      NothingToTake(x, f[1..]);
      hide *;
      OnlyHere(mode, x, t);
      if EndsAt(mode, x, t) {
        NodesOfCons(x, Node(t.rule, Inserted(t.kids, x)), f[1..]);
      } else if mode.ByCategory? {
        NodesOfCons(x, t, Grown(mode, x, f[1..]));
      } else {
        NodesOfCons(x, GrownTree(mode, x, t), Grown(mode, x, f[1..]));
      }
    }
  }

  /** The same for one node, whichever way the walk treats it. */
  lemma OnlyHere(mode: Mode, x: Rule, t: Tree)
    requires t.rule != x && NodesOf(x, t.kids) == 0 && Without(x, Grown(mode, x, t.kids)) == t.kids
    ensures Without(x, [t]) == [t]
    ensures Without(x, [Node(t.rule, Inserted(t.kids, x))]) == [t]
    ensures Without(x, [GrownTree(mode, x, t)]) == [t]
  {
    NothingToTake(x, t.kids);
    hide NodesOf, Without, Grown, Inserted, Takes;
    NodesOfInserted(x, t.kids);
    NodesOfInserted(x, Grown(mode, x, t.kids));
    NodesOfOne(x, t);
    NodesOfOne(x, Node(t.rule, Inserted(t.kids, x)));
    NodesOfOne(x, GrownTree(mode, x, t));
  }

  lemma {:induction false} NothingToTake(x: Rule, f: seq<Tree>)
    requires NodesOf(x, f) == 0
    ensures Without(x, f) == f
  {
    if f != [] {
      NothingToTake(x, f[0].kids);
      NothingToTake(x, f[1..]);
    }
  }

  /** A sibling list without the nodes of one rule. */
  function Stripped(x: Rule, kids: seq<Tree>): seq<Tree> {
    if kids == [] then [] else (if kids[0].rule == x then [] else [kids[0]]) + Stripped(x, kids[1..])
  }

  /** Node by node: one new child under each rule of another signature whose group is accepted, or whose coded level
      is at least the one asked for, and none under the others. */
  ghost predicate Served(mode: Mode, x: Rule, f: seq<Tree>, g: seq<Tree>) {
    |g| == |f| && forall i | 0 <= i < |f| :: ServedAt(mode, x, f[i], g[i])
  }

  ghost predicate ServedAt(mode: Mode, x: Rule, t: Tree, u: Tree) {
    && u.rule == t.rule
    && |u.kids| - |Stripped(x, u.kids)| ==
         (if t.rule.sigid != x.sigid
            && (if mode.ByGroup? then mode.accepts(t.rule.group) else mode.ByLevel? && t.rule.Encoded() >= mode.level)
          then 1 else 0)
    && Served(mode, x, t.kids, Stripped(x, u.kids))
  }

  lemma StrippedCons(x: Rule, t: Tree, rest: seq<Tree>)
    ensures Stripped(x, [t] + rest) == Stripped(x, [t]) + Stripped(x, rest)
    ensures Stripped(x, []) == []
  {
    assert ([t] + rest)[1..] == rest && [t][1..] == [];
  }

  lemma {:induction false} StrippedMore(x: Rule, f: seq<Tree>, g: seq<Tree>)
    ensures Stripped(x, f + g) == Stripped(x, f) + Stripped(x, g)
  {
    hide Stripped;
    if f == [] {
      StrippedCons(x, Node(x, []), []);
      assert f + g == g;
    } else {
      StrippedMore(x, f[1..], g);
      StrippedCons(x, f[0], f[1..]);
      StrippedCons(x, f[0], f[1..] + g);
      assert f == [f[0]] + f[1..] && f + g == [f[0]] + (f[1..] + g);
    }
  }

  lemma {:induction false} NothingToStrip(x: Rule, f: seq<Tree>)
    requires forall i | 0 <= i < |f| :: f[i].rule != x
    ensures Stripped(x, f) == f
  {
    if f != [] {
      NothingToStrip(x, f[1..]);
    }
  }

  lemma StripsItself(x: Rule)
    ensures Stripped(x, [Node(x, [])]) == []
  {
  }

  lemma StrippedInserted(x: Rule, kids: seq<Tree>)
    requires forall i | 0 <= i < |kids| :: kids[i].rule != x
    ensures Stripped(x, Inserted(kids, x)) == kids && |Inserted(kids, x)| == |kids| + 1
  {
    StripsItself(x);
    hide Stripped, Position;
    var p := Position(kids, x);
    StrippedMore(x, kids[..p], [Node(x, [])] + kids[p..]);
    StrippedMore(x, [Node(x, [])], kids[p..]);
    NothingToStrip(x, kids[..p]);
    NothingToStrip(x, kids[p..]);
    assert Inserted(kids, x) == kids[..p] + ([Node(x, [])] + kids[p..]);
    assert kids[..p] + kids[p..] == kids;
  }

  lemma {:induction false} NotAmong(x: Rule, f: seq<Tree>)
    requires NodesOf(x, f) == 0
    ensures forall i | 0 <= i < |f| :: f[i].rule != x && NodesOf(x, f[i].kids) == 0
  {
    if f != [] {
      NotAmong(x, f[1..]);
    }
  }

  /** Loading a rule that is not in the tree yet serves every node of its group or level, and only those. */
  lemma {:induction false} EachTakerIsServed(mode: Mode, x: Rule, f: seq<Tree>)
    requires Everywhere(mode) && NodesOf(x, f) == 0
    ensures Served(mode, x, f, Grown(mode, x, f))
  {
    hide Grown, Takes, Inserted, Stripped, NodesOf, Served, ServedAt;
    if f == [] {
      GrownNone(mode, x);
      NoneServed(mode, x);
    } else {
      var t, g := f[0], Grown(mode, x, f);
      GrownStep(mode, x, f);
      NotAmong(x, f);
      assert f[0].rule != x && NodesOf(x, t.kids) == 0;
      NoneAmong(x, f);
      EachTakerIsServed(mode, x, t.kids);
      EachTakerIsServed(mode, x, f[1..]);
      OneServed(mode, x, t);
      assert g[0] == GrownTree(mode, x, t) && g[1..] == Grown(mode, x, f[1..]);
      ServedMore(mode, x, f, g);
    }
  }

  lemma NoneServed(mode: Mode, x: Rule)
    ensures Served(mode, x, [], [])
  {
  }

  lemma NoneAmong(x: Rule, f: seq<Tree>)
    requires f != [] && NodesOf(x, f) == 0
    ensures NodesOf(x, f[1..]) == 0
  {
  }

  lemma TakesWhere(mode: Mode, r: Rule, x: Rule)
    requires Everywhere(mode)
    ensures Takes(mode, r, x) <==>
      && r.sigid != x.sigid
      && (if mode.ByGroup? then mode.accepts(r.group) else mode.ByLevel? && r.Encoded() >= mode.level)
  {
  }

  lemma OneServed(mode: Mode, x: Rule, t: Tree)
    requires Everywhere(mode) && NodesOf(x, t.kids) == 0 && Served(mode, x, t.kids, Grown(mode, x, t.kids))
    ensures ServedAt(mode, x, t, GrownTree(mode, x, t))
  {
    hide Grown, Takes, Inserted, Stripped, NodesOf, Served, Rule.Encoded;
    NotAmong(x, t.kids);
    GrownKeepsRules(mode, x, t.kids);
    TakesWhere(mode, t.rule, x);
    var kids := Grown(mode, x, t.kids);
    StrippedInserted(x, kids);
    NothingToStrip(x, kids);
  }

  lemma ServedMore(mode: Mode, x: Rule, f: seq<Tree>, g: seq<Tree>)
    requires f != [] && g != [] && ServedAt(mode, x, f[0], g[0]) && Served(mode, x, f[1..], g[1..])
    ensures Served(mode, x, f, g)
  {
    hide ServedAt;
    forall i | 0 <= i < |f| ensures ServedAt(mode, x, f[i], g[i]) {
      if i > 0 {
        assert ServedAt(mode, x, f[1..][i - 1], g[1..][i - 1]);
      }
    }
  }

  predicate SortedList(f: seq<Tree>) {
    forall i, j | 0 <= i < j < |f| :: f[i].rule.Encoded() >= f[j].rule.Encoded()
  }

  /** Every sibling list is non-increasing in its coded level. */
  predicate Sorted(f: seq<Tree>) {
    SortedList(f) && forall i | 0 <= i < |f| :: Sorted(f[i].kids)
  }

  /** Where the old siblings are once the new one stands at its position. */
  lemma InsertedShape(kids: seq<Tree>, x: Rule)
    ensures var r, p := Inserted(kids, x), Position(kids, x);
      && |r| == |kids| + 1 && r[p] == Node(x, []) && r[..p] == kids[..p] && r[p + 1..] == kids[p..]
      && forall i | 0 <= i < |r| && i != p :: r[i] == kids[if i < p then i else i - 1]
  {
    hide Position;
  }

  lemma PositionSplits(kids: seq<Tree>, x: Rule, i: nat)
    requires SortedList(kids) && i < |kids|
    ensures if i < Position(kids, x) then kids[i].rule.Encoded() >= x.Encoded()
      else kids[i].rule.Encoded() < x.Encoded()
  {
    hide Rule.Encoded;
    var p := Position(kids, x);
    hide Position;
    assert i > p ==> kids[i].rule.Encoded() <= kids[p].rule.Encoded();
  }

  /** A new sibling comes after all of at least its level and before all of less: stable in load order. */
  lemma InsertedIsStable(kids: seq<Tree>, x: Rule)
    requires SortedList(kids)
    ensures var r, p := Inserted(kids, x), Position(kids, x);
      && SortedList(r) && r[p] == Node(x, []) && r[..p] == kids[..p] && r[p + 1..] == kids[p..]
      && (forall i | 0 <= i < p :: kids[i].rule.Encoded() >= x.Encoded())
      && (forall i | p <= i < |kids| :: kids[i].rule.Encoded() < x.Encoded())
  {
    InsertedShape(kids, x);
    hide Inserted, Position, Rule.Encoded;
    forall i | 0 <= i < |kids|
      ensures if i < Position(kids, x) then kids[i].rule.Encoded() >= x.Encoded()
        else kids[i].rule.Encoded() < x.Encoded()
    {
      PositionSplits(kids, x, i);
    }
  }

  lemma {:induction false} GrownIsSorted(mode: Mode, x: Rule, f: seq<Tree>)
    requires Sorted(f)
    ensures Sorted(Grown(mode, x, f))
  {
    if f != [] {
      var t := f[0];
      GrownIsSorted(mode, x, t.kids);
      assert Sorted(f[1..]);
      GrownKeepsRules(mode, x, f);
      GrownIsSorted(mode, x, f[1..]);
      InsertedIsSorted(t.kids, x);
      InsertedIsSorted(Grown(mode, x, t.kids), x);
      var r := Grown(mode, x, f);
      forall i | 0 <= i < |r| ensures Sorted(r[i].kids) {
        if i > 0 {
          assert Sorted(f[i].kids);
          assert Sorted(Grown(mode, x, f[1..])[i - 1].kids);
        }
      }
    }
  }

  lemma InsertedIsSorted(kids: seq<Tree>, x: Rule)
    requires Sorted(kids)
    ensures Sorted(Inserted(kids, x))
  {
    InsertedIsStable(kids, x);
    var r, p := Inserted(kids, x), Position(kids, x);
    forall i | 0 <= i < |r| ensures Sorted(r[i].kids) {
      if i < p {
        assert r[i] == kids[i];
      } else if i > p {
        assert r[i] == kids[i - 1];
      }
    }
  }

  lemma GrownCons(mode: Mode, x: Rule, t: Tree, rest: seq<Tree>)
    requires Everywhere(mode)
    ensures Grown(mode, x, [t] + rest) == Grown(mode, x, [t]) + Grown(mode, x, rest)
    ensures Added(mode, x, [t] + rest) == Added(mode, x, [t]) + Added(mode, x, rest)
  {
    hide Inserted, Takes;
    assert ([t] + rest)[1..] == rest;
  }

  lemma GrownNone(mode: Mode, x: Rule)
    ensures Grown(mode, x, []) == [] && Added(mode, x, []) == 0
  {
  }

  lemma {:induction false} GrownMore(mode: Mode, x: Rule, f: seq<Tree>, g: seq<Tree>)
    requires Everywhere(mode)
    ensures Grown(mode, x, f + g) == Grown(mode, x, f) + Grown(mode, x, g)
    ensures Added(mode, x, f + g) == Added(mode, x, f) + Added(mode, x, g)
  {
    hide Grown, Added;
    if f == [] {
      GrownNone(mode, x);
      assert f + g == g;
    } else {
      GrownMore(mode, x, f[1..], g);
      GrownCons(mode, x, f[0], f[1..]);
      GrownCons(mode, x, f[0], f[1..] + g);
      assert f == [f[0]] + f[1..];
      assert f + g == [f[0]] + (f[1..] + g);
    }
  }

  lemma {:induction false} SamePosition(f: seq<Tree>, g: seq<Tree>, x: Rule)
    requires |f| == |g| && forall i | 0 <= i < |f| :: f[i].rule == g[i].rule
    ensures Position(f, x) == Position(g, x)
  {
    if f != [] {
      SamePosition(f[1..], g[1..], x);
    }
  }

  /** The walk that comes after an insertion passes over the new leaf. */
  lemma GrownAfterInsertion(mode: Mode, x: Rule, kids: seq<Tree>)
    requires Everywhere(mode)
    ensures Grown(mode, x, Inserted(kids, x)) == Inserted(Grown(mode, x, kids), x)
    ensures Added(mode, x, Inserted(kids, x)) == Added(mode, x, kids)
  {
    hide Grown, Added, Position;
    var p := Position(kids, x);
    GrownKeepsRules(mode, x, kids);
    SamePosition(kids, Grown(mode, x, kids), x);
    NewLeafStays(mode, x);
    GrownMore(mode, x, kids[..p], [Node(x, [])] + kids[p..]);
    GrownMore(mode, x, [Node(x, [])], kids[p..]);
    GrownMore(mode, x, kids[..p], kids[p..]);
    assert kids[..p] + kids[p..] == kids;
    assert Inserted(kids, x) == kids[..p] + ([Node(x, [])] + kids[p..]);
    hide Grown, Added, Position;
    assert Grown(mode, x, kids)[..p] == Grown(mode, x, kids[..p]);
    assert Grown(mode, x, kids)[p..] == Grown(mode, x, kids[p..]);
  }

  lemma NewLeafStays(mode: Mode, x: Rule)
    requires Everywhere(mode)
    ensures Grown(mode, x, [Node(x, [])]) == [Node(x, [])] && Added(mode, x, [Node(x, [])]) == 0
  {
  }

  /** What a walk makes of one node it passes, and how many children it adds there and below. */
  function GrownTree(mode: Mode, x: Rule, t: Tree): Tree {
    var kids := Grown(mode, x, t.kids);
    Node(t.rule, if Everywhere(mode) && Takes(mode, t.rule, x) then Inserted(kids, x) else kids)
  }

  function AddedBelow(mode: Mode, x: Rule, t: Tree): nat {
    (if Everywhere(mode) && Takes(mode, t.rule, x) then 1 else 0) + Added(mode, x, t.kids)
  }

  /** The walk ends at this node. */
  predicate EndsAt(mode: Mode, x: Rule, t: Tree) {
    !Everywhere(mode) && Takes(mode, t.rule, x)
  }

  /** One round of a walk. */
  lemma GrownStep(mode: Mode, x: Rule, f: seq<Tree>)
    requires f != []
    ensures Grown(mode, x, f) ==
      if EndsAt(mode, x, f[0]) then [Node(f[0].rule, Inserted(f[0].kids, x))] + f[1..]
      else [if mode.ByCategory? then f[0] else GrownTree(mode, x, f[0])] + Grown(mode, x, f[1..])
    ensures Added(mode, x, f) ==
      if EndsAt(mode, x, f[0]) then 1
      else (if mode.ByCategory? then 0 else AddedBelow(mode, x, f[0])) + Added(mode, x, f[1..])
  {
  }
}
