/** Matching an event against the rule tree, and the hourly report of how often each rule fired. */
module HourlyReports {
  import opened Wrappers
  import opened Events
  import opened RuleTrees
  import opened RuleNodes
  import opened RuleLevels
  import opened RuleWinners

  /** How many of these events are given a rule. */
  ghost function Alerting(f: seq<Tree>, events: seq<nat -> bool>): nat {
    if events == [] then 0
    else
      var n := |events| - 1;
      Alerting(f, events[..n]) + if FirstWinner(f, events[n], 0).0.Some? then 1 else 0
  }

  function Sum(s: seq<nat>): nat {
    if s == [] then 0 else s[0] + Sum(s[1..])
  }

  lemma {:induction false} SumUpdated(s: seq<nat>, i: nat, v: nat)
    requires i < |s|
    ensures Sum(s[i := v]) == Sum(s) - s[i] + v
  {
    if i > 0 {
      SumUpdated(s[1..], i - 1, v);
      assert s[i := v][1..] == s[1..][i - 1 := v];
    } else {
      assert s[i := v][1..] == s[1..];
    }
  }

  /** One printed line: a rule and its count. */
  datatype Line = Line(sigid: int, count: nat)

  function Counts(lines: seq<Line>): (s: seq<nat>)
    ensures |s| == |lines|
  {
    seq(|lines|, i requires 0 <= i < |lines| => lines[i].count)
  }

  /** The counts of all rules. */
  ghost function Fired(rules: seq<Rule>): (s: seq<nat>)
    reads rules`firedTimes
    ensures |s| == |rules|
    ensures forall i | 0 <= i < |rules| :: s[i] == rules[i].firedTimes
    decreases |rules|
  {
    if rules == [] then [] else [rules[0].firedTimes] + Fired(rules[1..])
  }

  /** The counts `was` of the rules of `f` were printed and reset, the others are as they were. */
  ghost predicate Printed(f: seq<Tree>, rules: seq<Rule>, was: seq<nat>, now: seq<nat>, lines: seq<Line>) {
    && |was| == |now| == |rules|
    && (forall i {:trigger now[i]} | 0 <= i < |rules| :: now[i] == if rules[i] in RulesOf(f) then 0 else was[i])
    && Sum(Counts(lines)) + Sum(now) == Sum(was)
    && Reports(RulesOf(f), rules, was, lines)
  }

  /** A rule of `over` has fired and this is its line. */
  ghost predicate Reported(over: set<Rule>, rules: seq<Rule>, was: seq<nat>, line: Line)
    requires |was| == |rules|
  {
    exists i :: 0 <= i < |rules| && rules[i] in over && was[i] > 0 && line == Line(rules[i].sigid, was[i])
  }

  /** There is a line for each rule of `over` that has fired, and no other line. */
  ghost predicate Reports(over: set<Rule>, rules: seq<Rule>, was: seq<nat>, lines: seq<Line>)
    requires |was| == |rules|
  {
    && (forall k | 0 <= k < |lines| :: Reported(over, rules, was, lines[k]))
    && (forall i | 0 <= i < |rules| && rules[i] in over && was[i] > 0 :: Line(rules[i].sigid, was[i]) in lines)
  }

  lemma ReportsMore(over: set<Rule>, more: set<Rule>, rules: seq<Rule>, was: seq<nat>, mid: seq<nat>, a: seq<Line>,
                    b: seq<Line>)
    requires |was| == |mid| == |rules| && Reports(over, rules, was, a) && Reports(more, rules, mid, b)
    requires forall i {:trigger mid[i]} | 0 <= i < |rules| :: mid[i] == if rules[i] in over then 0 else was[i]
    ensures Reports(over + more, rules, was, a + b)
  {
    forall k | 0 <= k < |a + b|
      ensures Reported(over + more, rules, was, (a + b)[k])
    {
      if k < |a| {
        assert Reported(over, rules, was, a[k]);
      } else {
        assert Reported(more, rules, mid, b[k - |a|]);
      }
    }
    forall i | 0 <= i < |rules| && rules[i] in over + more && was[i] > 0
      ensures Line(rules[i].sigid, was[i]) in a + b
    {
      if rules[i] !in over {
        assert mid[i] == was[i];
      }
    }
  }

  lemma NothingPrinted(rules: seq<Rule>, was: seq<nat>)
    requires |was| == |rules|
    ensures Printed([], rules, was, was, [])
  {
  }

  lemma PrintedMore(f: seq<Tree>, g: seq<Tree>, rules: seq<Rule>, was: seq<nat>, mid: seq<nat>, now: seq<nat>,
                    a: seq<Line>, b: seq<Line>)
    requires Printed(f, rules, was, mid, a) && Printed(g, rules, mid, now, b)
    ensures Printed(f + g, rules, was, now, a + b)
  {
    hide RulesOf, Sum, Counts, Reports;
    ReportsMore(RulesOf(f), RulesOf(g), rules, was, mid, a, b);
    SumOfMore(a, b);
    RulesOfBoth(f, g);
  }

  lemma {:induction false} RulesOfBoth(f: seq<Tree>, g: seq<Tree>)
    ensures RulesOf(f + g) == RulesOf(f) + RulesOf(g)
  {
    if f == [] {
      assert f + g == g;
    } else {
      RulesOfBoth(f[1..], g);
      assert (f + g)[1..] == f[1..] + g;
    }
  }

  /** A node and what is below it. */
  lemma PrintedNode(t: Tree, rules: seq<Rule>, was: seq<nat>, mid: seq<nat>, now: seq<nat>, a: seq<Line>, b: seq<Line>)
    requires Printed([Node(t.rule, [])], rules, was, mid, a) && Printed(t.kids, rules, mid, now, b)
    ensures Printed([t], rules, was, now, a + b)
  {
    PrintedMore([Node(t.rule, [])], t.kids, rules, was, mid, now, a, b);
    RulesOfBoth([Node(t.rule, [])], t.kids);
    assert [t][1..] == [] && [Node(t.rule, [])][1..] == [];
    assert RulesOf([t]) == RulesOf([Node(t.rule, [])] + t.kids);
  }

  twostate lemma FiredUpdated(new rules: seq<Rule>, new r: Rule, k: nat)
    requires old(allocated(rules)) && Distinct(rules) && k < |rules| && rules[k] == r
    requires forall q | q in rules && q != r :: unchanged(q`firedTimes)
    ensures Fired(rules) == old(Fired(rules))[k := r.firedTimes]
  {
    forall i: nat | i < |rules| && i != k ensures rules[i].firedTimes == old(rules[i].firedTimes) {
      assert rules[i] in rules && rules[i] != r;
    }
  }

  lemma OnlyOne(rules: seq<Rule>, k: nat)
    requires Distinct(rules) && k < |rules|
    ensures forall i | 0 <= i < |rules| && i != k :: rules[i] != rules[k]
  {
  }

  /** What matching an event does: the winner is counted once, nothing else changes. */
  ghost predicate Counted(winner: Option<Rule>, r: Rule?, rules: seq<Rule>, was: seq<nat>, now: seq<nat>,
                          alertsWas: nat, alertsNow: nat) {
    && r == (match winner case None => null case Some(w) => w)
    && alertsNow == alertsWas + (if r != null then 1 else 0)
    && |was| == |now| == |rules|
    && (forall i {:trigger now[i]} | 0 <= i < |rules| :: now[i] == was[i] + if rules[i] == r then 1 else 0)
    && Sum(now) - Sum(was) == alertsNow - alertsWas
  }

  /** The hour's alerts stay the sum of the rules' counts. */
  lemma CountingKeepsBalance(winner: Option<Rule>, r: Rule?, rules: seq<Rule>, was: seq<nat>, now: seq<nat>,
                             alertsWas: nat, alertsNow: nat)
    requires Counted(winner, r, rules, was, now, alertsWas, alertsNow)
    ensures Sum(was) == alertsWas <==> Sum(now) == alertsNow
    ensures alertsNow == alertsWas + if winner.Some? then 1 else 0
  {
  }

  lemma NothingCounted(rules: seq<Rule>, was: seq<nat>, alerts: nat)
    requires |was| == |rules|
    ensures Counted(None, null, rules, was, was, alerts, alerts)
  {
  }

  lemma WinnerKnown(winner: Option<Rule>, r: Rule?, rules: seq<Rule>, was: seq<nat>, now: seq<nat>, alertsWas: nat,
                    alertsNow: nat)
    requires Counted(winner, r, rules, was, now, alertsWas, alertsNow)
    ensures r == match winner case None => null case Some(w) => w
  {
  }

  lemma NothingChanged(rules: seq<Rule>, was: seq<nat>, now: seq<nat>, alertsWas: nat, alertsNow: nat)
    requires Counted(None, null, rules, was, now, alertsWas, alertsNow)
    ensures now == was && alertsNow == alertsWas
  {
  }

  class Statistics {
    var hourlyAlerts: nat

    /** The number of alerts of the hour is the number of times that rules fired; `rules` lists every rule once. */
    ghost predicate Balanced(rules: seq<Rule>)
      reads this, rules`firedTimes
    {
      Distinct(rules) && Sum(Fired(rules)) == hourlyAlerts
    }

    /** The end of OS_CheckIfRuleMatch for a rule that alerts. */
    method CountAlert(r: Rule, ghost rules: seq<Rule>)
      requires Distinct(rules) && r in rules
      modifies this, r`firedTimes
      ensures Counted(Some(r), r, rules, old(Fired(rules)), Fired(rules), old(hourlyAlerts), hourlyAlerts)
      ensures hourlyAlerts == old(hourlyAlerts) + 1 && r.firedTimes == old(r.firedTimes) + 1
    {
      hide Fired, Sum, Distinct;
      ghost var was := Fired(rules);
      ghost var k :| 0 <= k < |rules| && rules[k] == r;
      hourlyAlerts := hourlyAlerts + 1;
      r.firedTimes := r.firedTimes + 1;
      FiredUpdated(rules, r, k);
      SumUpdated(was, k, was[k] + 1);
      OnlyOne(rules, k);
    }

    /** Every rule of these trees is one of `rules`. */
    ghost predicate Known(f: seq<Tree>, rules: seq<Rule>) {
      Distinct(rules) && forall r | r in RulesOf(f) :: r in rules
    }

    /** OS_CheckIfRuleMatch, from the test number `n` on. */
    method CheckIfRuleMatch(node: RuleNode, tests: nat -> bool, n: nat, ghost rules: seq<Rule>)
      returns (r: Rule?, m: nat)
      requires node.Valid() && Known([node.tree], rules)
      modifies this, rules`firedTimes
      ensures m == Winner(node.tree, tests, n).1
      ensures Counted(Winner(node.tree, tests, n).0, r, rules, old(Fired(rules)), Fired(rules), old(hourlyAlerts),
        hourlyAlerts)
      ensures old(Balanced(rules)) ==> Balanced(rules)
      ensures hourlyAlerts == old(hourlyAlerts) + if r == null then 0 else 1
      ensures forall q | q in rules :: q.firedTimes == old(q.firedTimes) + if q == r then 1 else 0
      decreases Size([node.tree]), 0
    {
      hide RuleNode.Valid, ForestOk, RulesOf, Sum, Fired, Counted;
      Inside(node);
      RulesOfMore([node.tree], 0);
      SizeOfOne(node.tree);
      ghost var was, alerts := Fired(rules), hourlyAlerts;
      NothingCounted(rules, was, alerts);
      if !tests(n) {
        return null, n + 1;
      }
      r, m := CheckChildren(node.child, node.tree.kids, node.repr - {node}, tests, n + 1, rules);
      WinnerKnown(FirstWinner(node.tree.kids, tests, n + 1).0, r, rules, was, Fired(rules), alerts, hourlyAlerts);
      CountingKeepsBalance(FirstWinner(node.tree.kids, tests, n + 1).0, r, rules, was, Fired(rules), alerts,
        hourlyAlerts);
      if r != null {
        return;
      }
      NothingChanged(rules, was, Fired(rules), alerts, hourlyAlerts);
      if node.rule.noAlert {
        return null, m;
      }
      CountAlert(node.rule, rules);
      r := node.rule;
      CountingKeepsBalance(Some(node.rule), r, rules, was, Fired(rules), alerts, hourlyAlerts);
    }

    /** The loop over dependent rules. */
    method CheckChildren(ns: seq<RuleNode>, ghost f: seq<Tree>, ghost repr: set<RuleNode>, tests: nat -> bool, n: nat,
                         ghost rules: seq<Rule>)
      returns (r: Rule?, m: nat)
      requires ForestOk(ns, f, repr) && Known(f, rules)
      modifies this, rules`firedTimes
      ensures m == FirstWinner(f, tests, n).1
      ensures Counted(FirstWinner(f, tests, n).0, r, rules, old(Fired(rules)), Fired(rules), old(hourlyAlerts),
        hourlyAlerts)
      ensures hourlyAlerts == old(hourlyAlerts) + if r == null then 0 else 1
      ensures forall q | q in rules :: q.firedTimes == old(q.firedTimes) + if q == r then 1 else 0
      decreases Size(f), 1
    {
      hide RuleNode.Valid, ForestOk, RulesOf, Sum, Size, Fired, Counted;
      Heads(ns, f, repr);
      assert f[0..] == f;
      ghost var was, alerts := Fired(rules), hourlyAlerts;
      m := n;
      for i := 0 to |ns|
        invariant ForestOk(ns, f, repr) && FirstWinner(f, tests, n) == FirstWinner(f[i..], tests, m)
        invariant Fired(rules) == old(Fired(rules)) && hourlyAlerts == old(hourlyAlerts)
        invariant forall q | q in rules :: q.firedTimes == old(q.firedTimes)
      {
        ForestAt(ns, f, repr, i);
        RulesOfMore(f, i);
        SizeOfPart(f, i);
        assert f[i..][1..] == f[i + 1..];
        ghost var w := Winner(f[i], tests, m).0;
        r, m := CheckIfRuleMatch(ns[i], tests, m, rules);
        WinnerKnown(w, r, rules, was, Fired(rules), alerts, hourlyAlerts);
        if r != null {
          return;
        }
        NothingChanged(rules, was, Fired(rules), alerts, hourlyAlerts);
      }
      NothingCounted(rules, was, alerts);
      r := null;
    }

    /** The events of an hour, one after the other: the top-level rules are tried in order until one matches. */
    method AnalyzeAll(ns: seq<RuleNode>, ghost f: seq<Tree>, ghost repr: set<RuleNode>, events: seq<nat -> bool>,
                      ghost rules: seq<Rule>)
      requires ForestOk(ns, f, repr) && Known(f, rules) && Balanced(rules)
      modifies this, rules`firedTimes
      ensures Balanced(rules) && hourlyAlerts == old(hourlyAlerts) + Alerting(f, events)
    {
      hide ForestOk, RulesOf, Sum, Fired, Counted;
      assert events[..|events|] == events;
      for i := 0 to |events|
        invariant ForestOk(ns, f, repr) && Balanced(rules)
        invariant hourlyAlerts == old(hourlyAlerts) + Alerting(f, events[..i])
      {
        ghost var was, alerts := Fired(rules), hourlyAlerts;
        ghost var w := FirstWinner(f, events[i], 0).0;
        var r, m := CheckChildren(ns, f, repr, events[i], 0, rules);
        CountingKeepsBalance(w, r, rules, was, Fired(rules), alerts, hourlyAlerts);
        assert events[..i + 1][..i] == events[..i];
      }
    }

    // -----------------------------------------------------------------------------------------
    // The report

    /** The first lines of LoopRule: a rule that fired is printed and reset, wherever it is met first. */
    method PrintRule(r: Rule, ghost rules: seq<Rule>) returns (lines: seq<Line>)
      requires Distinct(rules) && r in rules
      modifies r`firedTimes
      ensures Printed([Node(r, [])], rules, old(Fired(rules)), Fired(rules), lines)
      ensures lines == if old(r.firedTimes) > 0 then [Line(r.sigid, old(r.firedTimes))] else []
    {
      hide Fired, Sum, Distinct;
      ghost var k :| 0 <= k < |rules| && rules[k] == r;
      ghost var was := Fired(rules);
      lines := [];
      if r.firedTimes != 0 {
        lines := [Line(r.sigid, r.firedTimes)];
        r.firedTimes := 0;
      }
      RulesOfLeaf(r);
      FiredUpdated(rules, r, k);
      SumUpdated(was, k, 0);
      OnlyOne(rules, k);
      SumOfLine(lines, was[k]);
      OneReported(r, rules, was, k, lines);
      hide Reports;
    }

    /** LoopRule */
    method LoopRule(n: RuleNode, ghost rules: seq<Rule>) returns (lines: seq<Line>)
      requires n.Valid() && Known([n.tree], rules)
      modifies rules`firedTimes
      ensures Printed([n.tree], rules, old(Fired(rules)), Fired(rules), lines)
      decreases Size([n.tree]), 0
    {
      hide RuleNode.Valid, ForestOk, Printed, RulesOf, Fired;
      Inside(n);
      RulesOfMore([n.tree], 0);
      SizeOfOne(n.tree);
      ghost var was := Fired(rules);
      lines := PrintRule(n.rule, rules);
      ghost var mid := Fired(rules);
      var below := LoopRules(n.child, n.tree.kids, n.repr - {n}, rules);
      PrintedNode(n.tree, rules, was, mid, Fired(rules), lines, below);
      lines := lines + below;
    }

    /** The loops over siblings of LoopRule and DumpLogstats. */
    method LoopRules(ns: seq<RuleNode>, ghost f: seq<Tree>, ghost repr: set<RuleNode>, ghost rules: seq<Rule>)
      returns (lines: seq<Line>)
      requires ForestOk(ns, f, repr) && Known(f, rules)
      modifies rules`firedTimes
      ensures Printed(f, rules, old(Fired(rules)), Fired(rules), lines)
      decreases Size(f), 1
    {
      hide RuleNode.Valid, ForestOk, Size, Printed, RulesOf, Fired;
      Heads(ns, f, repr);
      lines := [];
      ghost var was := Fired(rules);
      NothingPrinted(rules, was);
      assert f[..0] == [];
      for i := 0 to |ns|
        invariant ForestOk(ns, f, repr) && Printed(f[..i], rules, was, Fired(rules), lines)
      {
        ForestAt(ns, f, repr, i);
        RulesOfMore(f, i);
        SizeOfPart(f, i);
        ghost var mid := Fired(rules);
        var more := LoopRule(ns[i], rules);
        PrintedMore(f[..i], [f[i]], rules, was, mid, Fired(rules), lines, more);
        assert f[..i + 1] == f[..i] + [f[i]];
        lines := lines + more;
      }
      assert f[..|ns|] == f;
    }

    /** DumpLogstats, when the file can be opened. */
    method DumpLogstats(ns: seq<RuleNode>, ghost f: seq<Tree>, ghost repr: set<RuleNode>, ghost rules: seq<Rule>)
      returns (lines: seq<Line>, total: nat)
      requires ForestOk(ns, f, repr) && Known(f, rules) && (forall r | r in rules :: r in RulesOf(f)) && Balanced(rules)
      modifies this, rules`firedTimes
      ensures total == old(hourlyAlerts) == Sum(Counts(lines))
      ensures forall line | line in lines ::
        exists i :: 0 <= i < |rules| && old(rules[i].firedTimes) > 0
          && line == Line(rules[i].sigid, old(rules[i].firedTimes))
      ensures forall i | 0 <= i < |rules| && old(rules[i].firedTimes) > 0 ::
        Line(rules[i].sigid, old(rules[i].firedTimes)) in lines
      ensures Balanced(rules) && hourlyAlerts == 0 && forall r | r in rules :: r.firedTimes == 0
    {
      hide Reports, ForestOk, RulesOf;
      lines := LoopRules(ns, f, repr, rules);
      EachHasItsLine(RulesOf(f), rules, old(Fired(rules)), lines);
      total := hourlyAlerts;
      hourlyAlerts := 0;
      SumOfZeros(Fired(rules));
    }
  }

  lemma EachHasItsLine(over: set<Rule>, rules: seq<Rule>, was: seq<nat>, lines: seq<Line>)
    requires |was| == |rules| && Reports(over, rules, was, lines) && forall r | r in rules :: r in over
    ensures forall line | line in lines ::
      exists i :: 0 <= i < |rules| && was[i] > 0 && line == Line(rules[i].sigid, was[i])
    ensures forall i | 0 <= i < |rules| && was[i] > 0 :: Line(rules[i].sigid, was[i]) in lines
  {
    forall line | line in lines
      ensures exists i :: 0 <= i < |rules| && was[i] > 0 && line == Line(rules[i].sigid, was[i])
    {
      var k :| 0 <= k < |lines| && lines[k] == line;
      assert Reported(over, rules, was, lines[k]);
    }
    forall i | 0 <= i < |rules| && was[i] > 0 ensures Line(rules[i].sigid, was[i]) in lines {
      assert rules[i] in rules;
    }
  }

  lemma RulesOfLeaf(r: Rule)
    ensures RulesOf([Node(r, [])]) == {r}
  {
    assert [Node(r, [])][1..] == [];
  }

  lemma OneReported(r: Rule, rules: seq<Rule>, was: seq<nat>, k: nat, lines: seq<Line>)
    requires |was| == |rules| && k < |rules| && rules[k] == r && Distinct(rules)
    requires lines == if was[k] > 0 then [Line(r.sigid, was[k])] else []
    ensures Reports({r}, rules, was, lines)
  {
    OnlyOne(rules, k);
    if was[k] > 0 {
      assert Reported({r}, rules, was, lines[0]);
    }
  }

  lemma SumOfLine(lines: seq<Line>, n: nat)
    requires if n > 0 then |lines| == 1 && lines[0].count == n else lines == []
    ensures Sum(Counts(lines)) == n
  {
    if n > 0 {
      assert Counts(lines)[1..] == [];
    }
  }

  lemma {:induction false} SumOfMore(a: seq<Line>, b: seq<Line>)
    ensures Sum(Counts(a + b)) == Sum(Counts(a)) + Sum(Counts(b))
  {
    if a == [] {
      assert a + b == b && Counts(a) == [];
    } else {
      SumOfMore(a[1..], b);
      assert (a + b)[1..] == a[1..] + b;
      assert Counts(a)[1..] == Counts(a[1..]) && Counts(a + b)[1..] == Counts((a + b)[1..]);
    }
  }

  lemma {:induction false} SumOfZeros(s: seq<nat>)
    requires forall i | 0 <= i < |s| :: s[i] == 0
    ensures Sum(s) == 0
  {
    if s != [] { SumOfZeros(s[1..]); }
  }
}
