/** Which rule an event is given: the walk of the rule tree, and the place it ends at. */
module RuleWinners {
  import opened Wrappers
  import opened RuleTrees

  /** The rule an event is given, and how many tests were made: the first rule below a matching node, or that
      node's own unless it must not alert. `tests(n)` is how the test number `n` comes out; the tests change
      state, so the same rule may match at one visit and not at another. */
  ghost function Winner(t: Tree, tests: nat -> bool, n: nat): (Option<Rule>, nat) {
    if !tests(n) then (None, n + 1)
    else
      var below := FirstWinner(t.kids, tests, n + 1);
      if below.0.Some? then below else (if t.rule.noAlert then None else Some(t.rule), below.1)
  }

  ghost function FirstWinner(f: seq<Tree>, tests: nat -> bool, n: nat): (Option<Rule>, nat) {
    if f == [] then (None, n)
    else
      var first := Winner(f[0], tests, n);
      if first.0.Some? then first else FirstWinner(f[1..], tests, first.1)
  }

  /** The number of the test after a node and all below it are tried: one for each node below nodes that matched. */
  function TestsOver(t: Tree, tests: nat -> bool, n: nat): nat {
    if tests(n) then TestsOverAll(t.kids, tests, n + 1) else n + 1
  }

  function TestsOverAll(f: seq<Tree>, tests: nat -> bool, n: nat): nat {
    if f == [] then n else TestsOverAll(f[1..], tests, TestsOver(f[0], tests, n))
  }

  /** A place in the trees: the number of a node among its siblings, at every level from the top down. */
  type Path = seq<nat>

  predicate InTrees(f: seq<Tree>, p: Path)
    decreases |p|
  {
    p != [] && p[0] < |f| && (|p| == 1 || InTrees(f[p[0]].kids, p[1..]))
  }

  function RuleAt(f: seq<Tree>, p: Path): Rule
    requires InTrees(f, p)
    decreases |p|
  {
    if |p| == 1 then f[p[0]].rule else RuleAt(f[p[0]].kids, p[1..])
  }

  /** This node and all above it match when they are tried in a walk that nothing ends. */
  predicate Reached(f: seq<Tree>, tests: nat -> bool, n: nat, p: Path)
    requires InTrees(f, p)
    decreases |p|
  {
    var here := TestsOverAll(f[..p[0]], tests, n);
    tests(here) && (|p| == 1 || Reached(f[p[0]].kids, tests, here + 1, p[1..]))
  }

  /** The place `p` is tried to its end before `q` is: `p` is below `q`, or left of it where they part. */
  predicate Before(p: Path, q: Path)
    decreases |p|
  {
    p != [] && (q == [] || p[0] < q[0] || (p[0] == q[0] && Before(p[1..], q[1..])))
  }

  /** The walk reaches a node of `r`. */
  ghost predicate ReachedByMatches(f: seq<Tree>, tests: nat -> bool, n: nat, r: Rule) {
    exists p :: InTrees(f, p) && Reached(f, tests, n, p) && RuleAt(f, p) == r
  }

  lemma PlaceInFirst(f: seq<Tree>, tests: nat -> bool, n: nat, q: Path)
    requires InTrees(f, q) && q[0] == 0
    ensures Reached(f, tests, n, q) <==> tests(n) && (|q| == 1 || Reached(f[0].kids, tests, n + 1, q[1..]))
    ensures RuleAt(f, q) == if |q| == 1 then f[0].rule else RuleAt(f[0].kids, q[1..])
  {
    assert f[..0] == [];
  }

  lemma PlaceInRest(f: seq<Tree>, tests: nat -> bool, n: nat, q: Path, r: Path)
    requires InTrees(f, q) && q[0] > 0 && r == [q[0] - 1] + q[1..]
    ensures InTrees(f[1..], r) && RuleAt(f[1..], r) == RuleAt(f, q)
    ensures Reached(f, tests, n, q) <==> Reached(f[1..], tests, TestsOver(f[0], tests, n), r)
  {
    assert f[..q[0]][1..] == f[1..][..r[0]] && r[1..] == q[1..];
  }

  /** The walk finds nothing exactly if every node it reaches must not alert. */
  lemma {:induction false} NobodyWins(f: seq<Tree>, tests: nat -> bool, n: nat)
    requires FirstWinner(f, tests, n).0 == None
    ensures FirstWinner(f, tests, n).1 == TestsOverAll(f, tests, n)
    ensures forall q | InTrees(f, q) && Reached(f, tests, n, q) :: RuleAt(f, q).noAlert
  {
    if f != [] {
      if tests(n) {
        NobodyWins(f[0].kids, tests, n + 1);
      }
      NobodyWins(f[1..], tests, Winner(f[0], tests, n).1);
      forall q | InTrees(f, q) && Reached(f, tests, n, q) ensures RuleAt(f, q).noAlert {
        if q[0] == 0 {
          PlaceInFirst(f, tests, n, q);
        } else {
          PlaceInRest(f, tests, n, q, [q[0] - 1] + q[1..]);
        }
      }
    }
  }

  /** The rule given stands at a place that is reached and alerts, and no place that is tried to its end before it, so
      none below it and none in an earlier branch, is both. */
  lemma {:induction false} WinnerIsFirst(f: seq<Tree>, tests: nat -> bool, n: nat) returns (p: Path)
    requires FirstWinner(f, tests, n).0.Some?
    ensures InTrees(f, p) && Reached(f, tests, n, p)
    ensures RuleAt(f, p) == FirstWinner(f, tests, n).0.value && !RuleAt(f, p).noAlert
    ensures forall q | InTrees(f, q) && Reached(f, tests, n, q) && Before(q, p) :: RuleAt(f, q).noAlert
    decreases f, 1
  {
    if Winner(f[0], tests, n).0.Some? {
      p := WinnerInFirst(f, tests, n);
    } else {
      p := WinnerInRest(f, tests, n);
    }
  }

  lemma {:induction false} WinnerInFirst(f: seq<Tree>, tests: nat -> bool, n: nat) returns (p: Path)
    requires f != [] && Winner(f[0], tests, n).0.Some?
    ensures InTrees(f, p) && Reached(f, tests, n, p)
    ensures RuleAt(f, p) == FirstWinner(f, tests, n).0.value && !RuleAt(f, p).noAlert
    ensures forall q | InTrees(f, q) && Reached(f, tests, n, q) && Before(q, p) :: RuleAt(f, q).noAlert
    decreases f, 0
  {
    if FirstWinner(f[0].kids, tests, n + 1).0.Some? {
      var below := WinnerIsFirst(f[0].kids, tests, n + 1);
      p := [0] + below;
      assert p[1..] == below;
    } else {
      NobodyWins(f[0].kids, tests, n + 1);
      p := [0];
      assert p[1..] == [];
    }
    PlaceInFirst(f, tests, n, p);
    forall q | InTrees(f, q) && Reached(f, tests, n, q) && Before(q, p) ensures RuleAt(f, q).noAlert {
      assert Before(q[1..], p[1..]);
      PlaceInFirst(f, tests, n, q);
    }
  }

  lemma {:induction false} WinnerInRest(f: seq<Tree>, tests: nat -> bool, n: nat) returns (p: Path)
    requires f != [] && Winner(f[0], tests, n).0.None? && FirstWinner(f, tests, n).0.Some?
    ensures InTrees(f, p) && Reached(f, tests, n, p)
    ensures RuleAt(f, p) == FirstWinner(f, tests, n).0.value && !RuleAt(f, p).noAlert
    ensures forall q | InTrees(f, q) && Reached(f, tests, n, q) && Before(q, p) :: RuleAt(f, q).noAlert
    decreases f, 0
  {
    if tests(n) {
      NobodyWins(f[0].kids, tests, n + 1);
    }
    var after := WinnerIsFirst(f[1..], tests, TestsOver(f[0], tests, n));
    p := [after[0] + 1] + after[1..];
    assert [p[0] - 1] + p[1..] == after;
    PlaceInRest(f, tests, n, p, after);
    forall q | InTrees(f, q) && Reached(f, tests, n, q) && Before(q, p) ensures RuleAt(f, q).noAlert {
      if q[0] == 0 {
        PlaceInFirst(f, tests, n, q);
      } else {
        PlaceInRest(f, tests, n, q, [q[0] - 1] + q[1..]);
      }
    }
  }

  /** Only a rule that alerts, and that is reached below nodes that all matched, is ever given. */
  lemma WinnersAlert(f: seq<Tree>, tests: nat -> bool, n: nat)
    ensures var w := FirstWinner(f, tests, n).0;
      w.Some? ==> !w.value.noAlert && ReachedByMatches(f, tests, n, w.value)
  {
    if FirstWinner(f, tests, n).0.Some? {
      var p := WinnerIsFirst(f, tests, n);
    }
  }

  /** An event gets no rule exactly if no alerting rule is reached. */
  lemma NoWinnerNoRule(f: seq<Tree>, tests: nat -> bool, n: nat)
    ensures FirstWinner(f, tests, n).0 == None <==> forall r | ReachedByMatches(f, tests, n, r) :: r.noAlert
  {
    if FirstWinner(f, tests, n).0.Some? {
      WinnersAlert(f, tests, n);
    } else {
      NobodyWins(f, tests, n);
    }
  }

  // -------------------------------------------------------------------------------------------
  // Tests that depend on the rule alone

  /** How the tests come out, one after the other, in a walk that nothing ends. */
  function Outcomes(f: seq<Tree>, matches: Rule -> bool): seq<bool> {
    if f == [] then []
    else
      [matches(f[0].rule)] + (if matches(f[0].rule) then Outcomes(f[0].kids, matches) else [])
        + Outcomes(f[1..], matches)
  }

  /** The rule at this place and all rules above it match. */
  predicate AllMatch(f: seq<Tree>, matches: Rule -> bool, p: Path)
    requires InTrees(f, p)
    decreases |p|
  {
    matches(f[p[0]].rule) && (|p| == 1 || AllMatch(f[p[0]].kids, matches, p[1..]))
  }

  /** The tests from number `n` on come out so. */
  predicate ComeOut(tests: nat -> bool, n: nat, outs: seq<bool>) {
    forall i | 0 <= i < |outs| :: tests(n + i) == outs[i]
  }

  lemma ComeOutInTurn(tests: nat -> bool, n: nat, a: seq<bool>, b: seq<bool>)
    requires ComeOut(tests, n, a + b)
    ensures ComeOut(tests, n, a) && ComeOut(tests, n + |a|, b)
  {
    assert forall i | 0 <= i < |a| :: (a + b)[i] == a[i];
    forall i | 0 <= i < |b| ensures tests(n + |a| + i) == b[i] {
      assert (a + b)[|a| + i] == b[i];
    }
  }

  lemma {:induction false} ReachedMatch(f: seq<Tree>, matches: Rule -> bool, tests: nat -> bool, n: nat)
    requires ComeOut(tests, n, Outcomes(f, matches))
    ensures TestsOverAll(f, tests, n) == n + |Outcomes(f, matches)|
    ensures forall p | InTrees(f, p) :: Reached(f, tests, n, p) <==> AllMatch(f, matches, p)
  {
    if f != [] {
      var first := [matches(f[0].rule)];
      var below := if matches(f[0].rule) then Outcomes(f[0].kids, matches) else [];
      ComeOutInTurn(tests, n, first + below, Outcomes(f[1..], matches));
      ComeOutInTurn(tests, n, first, below);
      assert tests(n + 0) == first[0];
      if tests(n) {
        ReachedMatch(f[0].kids, matches, tests, n + 1);
      }
      ReachedMatch(f[1..], matches, tests, TestsOver(f[0], tests, n));
      forall p | InTrees(f, p) ensures Reached(f, tests, n, p) <==> AllMatch(f, matches, p) {
        if p[0] == 0 {
          PlaceInFirst(f, tests, n, p);
        } else {
          var r := [p[0] - 1] + p[1..];
          PlaceInRest(f, tests, n, p, r);
          assert r[1..] == p[1..];
        }
      }
    }
  }

  /** When a rule matches at all of its nodes or at none, the rule given is the first in post-order among the alerting
      rules that match together with all rules above them, and none is given if there is no such place. */
  lemma WinnerInPostOrder(f: seq<Tree>, matches: Rule -> bool, tests: nat -> bool, n: nat) returns (p: Path)
    requires ComeOut(tests, n, Outcomes(f, matches))
    ensures match FirstWinner(f, tests, n).0
      case None => forall q | InTrees(f, q) && AllMatch(f, matches, q) :: RuleAt(f, q).noAlert
      case Some(r) =>
        && InTrees(f, p) && AllMatch(f, matches, p) && RuleAt(f, p) == r && !r.noAlert
        && forall q | InTrees(f, q) && AllMatch(f, matches, q) && Before(q, p) :: RuleAt(f, q).noAlert
  {
    ReachedMatch(f, matches, tests, n);
    p := [];
    if FirstWinner(f, tests, n).0.Some? {
      p := WinnerIsFirst(f, tests, n);
    } else {
      NobodyWins(f, tests, n);
    }
  }

  /** Such tests exist for every tree and every choice of matching rules. */
  lemma OutcomesComeOut(f: seq<Tree>, matches: Rule -> bool, n: nat) returns (tests: nat -> bool)
    ensures ComeOut(tests, n, Outcomes(f, matches))
  {
    var outs := Outcomes(f, matches);
    tests := i => n <= i < n + |outs| && outs[i - n];
  }
}
