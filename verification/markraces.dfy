/**
 The mark of one event that is on several lists: every search holds the mutex of its rule and the mutex of
 the list it walks, but two lists have two mutexes, and the mark is one field.
 */
module MarkRaces {
  import opened Locks

  /** A rule that may mark the event: it searches the history of the event's shard, or a shared list. */
  datatype Searcher = Searcher(rule: nat, level: int, shared: bool)

  /** `passed[t]`: searcher `t` holds its mutexes, found the mark low enough, and has not written it yet. */
  datatype State = State(mark: int, passed: seq<bool>)

  datatype Action = Test(t: nat) | Write(t: nat) | GiveUp(t: nat)

  /** The mutexes a search holds from its first look at an event to its last mark; `l` is the event's shard. */
  function Held(x: Searcher, l: nat): set<Lock> {
    {RuleMutex(x.rule), if x.shared then PrevMatchedMutex else ListMutex(l)}
  }

  /** These are the mutexes the operation holds between taking its second and releasing it. */
  lemma SearchHolds(x: Searcher, l: nat, rest: seq<Cmd>)
    ensures var p := Trace(if x.shared then SearchShared(x.rule) else SearchHistory(x.rule, l), rest);
      && |p| >= 4 && Holding({}, p, 2) == Held(x, l) && Holding({}, p, 4) == {}
  {
    var p := Trace(if x.shared then SearchShared(x.rule) else SearchHistory(x.rule, l), rest);
    var inner := if x.shared then PrevMatchedMutex else ListMutex(l);
    assert p == [Acquire(RuleMutex(x.rule)), Acquire(inner), Release(inner), Release(RuleMutex(x.rule))] + rest;
    assert p[1..][1..] == [Release(inner), Release(RuleMutex(x.rule))] + rest;
    assert p[1..][1..][1..][1..] == rest;
  }

  ghost predicate Enabled(xs: seq<Searcher>, l: nat, s: State, a: Action)
    requires |s.passed| == |xs|
  {
    a.t < |xs| &&
    match a
    case Test(t) => !s.passed[t] && s.mark < xs[t].level
                    && forall u {:trigger s.passed[u]} | 0 <= u < |xs| && s.passed[u] ::
                      Held(xs[t], l) !! Held(xs[u], l)
    case Write(t) => s.passed[t]
    case GiveUp(t) => s.passed[t]
  }

  function Step(xs: seq<Searcher>, s: State, a: Action): State
    requires |s.passed| == |xs| && a.t < |xs|
  {
    match a
    case Test(t) => s.(passed := s.passed[t := true])
    case Write(t) => State(xs[t].level, s.passed[t := false])
    case GiveUp(t) => s.(passed := s.passed[t := false])
  }

  ghost predicate CanRun(xs: seq<Searcher>, l: nat, s: State, actions: seq<Action>)
    requires |s.passed| == |xs|
    decreases |actions|
  {
    actions == [] || (Enabled(xs, l, s, actions[0]) && CanRun(xs, l, Step(xs, s, actions[0]), actions[1..]))
  }

  ghost function After(xs: seq<Searcher>, l: nat, s: State, actions: seq<Action>): (r: State)
    requires |s.passed| == |xs| && CanRun(xs, l, s, actions)
    ensures |r.passed| == |xs|
    decreases |actions|
  {
    if actions == [] then s else After(xs, l, Step(xs, s, actions[0]), actions[1..])
  }

  /** Any two searchers exclude each other or set the same mark. */
  ghost predicate Apart(xs: seq<Searcher>, l: nat) {
    forall t, u | 0 <= t < u < |xs| :: xs[t].level == xs[u].level || !(Held(xs[t], l) !! Held(xs[u], l))
  }

  /** What this can be told from: a rule that searches the history of the shard and a different rule that searches
      a shared list have the same level. */
  lemma ApartByKind(xs: seq<Searcher>, l: nat)
    ensures Apart(xs, l) <==>
      forall t, u | 0 <= t < |xs| && 0 <= u < |xs| && xs[t].shared && !xs[u].shared && xs[t].rule != xs[u].rule ::
        xs[t].level == xs[u].level
  {
    forall t, u | 0 <= t < |xs| && 0 <= u < |xs|
      ensures Held(xs[t], l) !! Held(xs[u], l) <==> xs[t].rule != xs[u].rule && xs[t].shared != xs[u].shared
    {
      assert RuleMutex(xs[t].rule) in Held(xs[t], l) && PrevMatchedMutex in Held(xs[t], l) <==> xs[t].shared;
      assert PrevMatchedMutex in Held(xs[u], l) <==> xs[u].shared;
      assert ListMutex(l) in Held(xs[t], l) <==> !xs[t].shared;
      assert ListMutex(l) in Held(xs[u], l) <==> !xs[u].shared;
    }
    if !Apart(xs, l) {
      var t, u :| 0 <= t < u < |xs| && xs[t].level != xs[u].level && Held(xs[t], l) !! Held(xs[u], l);
      assert xs[t].shared || xs[u].shared;
    }
  }

  ghost predicate Inv(xs: seq<Searcher>, l: nat, s: State) {
    && |s.passed| == |xs|
    && (forall t | 0 <= t < |xs| && s.passed[t] :: s.mark <= xs[t].level)
    && (forall t, u {:trigger s.passed[t], s.passed[u]} | 0 <= t < |xs| && 0 <= u < |xs| && t != u ::
          s.passed[t] && s.passed[u] ==> Held(xs[t], l) !! Held(xs[u], l))
  }

  lemma StepInv(xs: seq<Searcher>, l: nat, s: State, a: Action)
    requires Apart(xs, l) && Inv(xs, l, s) && Enabled(xs, l, s, a)
    ensures Inv(xs, l, Step(xs, s, a)) && s.mark <= Step(xs, s, a).mark
  {
    if a.Write? {
      forall u | 0 <= u < |xs| && u != a.t && s.passed[u] ensures xs[u].level == xs[a.t].level {
        assert u < a.t || a.t < u;
      }
    }
  }

  /** If they are apart, the mark never goes down, in any run and any interleaving. */
  lemma {:induction false} MarkNeverLowered(xs: seq<Searcher>, l: nat, s: State, actions: seq<Action>)
    requires Apart(xs, l) && Inv(xs, l, s) && CanRun(xs, l, s, actions)
    ensures s.mark <= After(xs, l, s, actions).mark
    decreases |actions|
  {
    if actions != [] {
      StepInv(xs, l, s, actions[0]);
      MarkNeverLowered(xs, l, Step(xs, s, actions[0]), actions[1..]);
    }
  }

  /** And only then: if two are not, one run from an unmarked event, with nobody at work, ends with the higher mark
      overwritten by the lower one. */
  lemma TwoListsLowerTheMark(xs: seq<Searcher>, l: nat) returns (s: State, actions: seq<Action>)
    requires !Apart(xs, l)
    ensures Inv(xs, l, s) && CanRun(xs, l, s, actions) && |actions| == 4
    ensures CanRun(xs, l, s, actions[..3]) && After(xs, l, s, actions).mark < After(xs, l, s, actions[..3]).mark
  {
    var t, u :|
      && 0 <= t < |xs| && 0 <= u < |xs| && t != u
      && xs[t].level < xs[u].level && Held(xs[t], l) !! Held(xs[u], l);
    var nobody := seq(|xs|, _ => false);
    s := State(xs[t].level - 1, nobody);
    actions := [Test(t), Test(u), Write(u), Write(t)];
    Unfold(xs, l, s, Test(t), [Test(u), Write(u), Write(t)]);
    Unfold(xs, l, s, Test(t), [Test(u), Write(u)]);
    var s1 := Step(xs, s, Test(t));
    Unfold(xs, l, s1, Test(u), [Write(u), Write(t)]);
    Unfold(xs, l, s1, Test(u), [Write(u)]);
    var s2 := Step(xs, s1, Test(u));
    Unfold(xs, l, s2, Write(u), [Write(t)]);
    Unfold(xs, l, s2, Write(u), []);
    Unfold(xs, l, Step(xs, s2, Write(u)), Write(t), []);
    assert actions == [Test(t)] + [Test(u), Write(u), Write(t)] && actions[..3] == [Test(t)] + [Test(u), Write(u)];
    assert [Test(u), Write(u), Write(t)] == [Test(u)] + [Write(u), Write(t)]
      && [Test(u), Write(u)] == [Test(u)] + [Write(u)];
    assert [Write(u), Write(t)] == [Write(u)] + [Write(t)] && [Write(u)] == [Write(u)] + []
      && [Write(t)] == [Write(t)] + [];
  }

  lemma Unfold(xs: seq<Searcher>, l: nat, s: State, a: Action, rest: seq<Action>)
    requires |s.passed| == |xs| && a.t < |xs|
    ensures CanRun(xs, l, s, [a] + rest) <==> Enabled(xs, l, s, a) && CanRun(xs, l, Step(xs, s, a), rest)
    ensures CanRun(xs, l, s, [a] + rest) ==> After(xs, l, s, [a] + rest) == After(xs, l, Step(xs, s, a), rest)
  {
    assert ([a] + rest)[1..] == rest;
  }
}
