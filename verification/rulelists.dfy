/**
 The rules as the loader builds them and as the analysis stage uses them: the numbers of the watching rules that a
 rule collects while the tree is marked stand for the group lists that its events are put on.
 */
module RuleLists {
  import opened Events
  import opened HistoryRuns
  import opened ListRuns
  import opened RuleMarks
  import opened RuleTrees
  import opened SharedLists

  /** Every watching rule has a group list of its own. */
  ghost predicate OwnLists(lists: map<int, OSList>) {
    forall a, b | a in lists && b in lists && lists[a] == lists[b] :: a == b
  }

  /** `info` is the rule `r`: it feeds the group lists of the rules that watch `r`, in that order. */
  ghost predicate IsRule(info: RuleInfo, r: Rule, lists: map<int, OSList>)
    reads r`watchers
  {
    && |info.groupPrevMatched| == |r.watchers|
    && forall i | 0 <= i < |r.watchers| :: r.watchers[i] in lists && info.groupPrevMatched[i] == lists[r.watchers[i]]
  }

  lemma ListsDiffer(info: RuleInfo, r: Rule, lists: map<int, OSList>)
    requires OwnLists(lists) && IsRule(info, r, lists)
    ensures Distinct(info.groupPrevMatched) <==> Distinct(r.watchers)
  {
    if i, j :| 0 <= i < j < |r.watchers| && r.watchers[i] == r.watchers[j] {
      assert info.groupPrevMatched[i] == info.groupPrevMatched[j];
    } else {
      forall i, j | 0 <= i < j < |r.watchers| ensures info.groupPrevMatched[i] != info.groupPrevMatched[j] {
        assert r.watchers[i] != r.watchers[j];
      }
    }
  }

  /** One marking of the tree, when it was `forest`, for a rule that watches groups. */
  datatype Pass = Pass(accepts: string -> bool, watcher: int, forest: seq<Tree>)

  /** The watchers a rule has collected after these markings. */
  ghost function Fed(passes: seq<Pass>, r: Rule): seq<int> {
    if passes == [] then []
    else
      var p := passes[|passes| - 1];
      Fed(passes[..|passes| - 1], r) + Copies(p.watcher, Marks(p.accepts, r, p.forest))
  }

  /** Each rule watches for itself, once. */
  ghost predicate WatchOnce(passes: seq<Pass>) {
    forall i, j | 0 <= i < j < |passes| :: passes[i].watcher != passes[j].watcher
  }

  /** OS_MarkGroup for one more rule. */
  lemma FedByMarking(rules: set<Rule>, was: map<Rule, seq<int>>, passes: seq<Pass>, p: Pass, r: Rule)
    requires MarkedOver(rules, was, p.accepts, p.watcher, p.forest) && r in rules && was[r] == Fed(passes, r)
    ensures r.watchers == Fed(passes + [p], r)
  {
    hide Marks;
    assert (passes + [p])[..|passes|] == passes;
  }

  lemma {:induction false} FedByThese(passes: seq<Pass>, r: Rule, x: int)
    requires forall i | 0 <= i < |passes| :: passes[i].watcher != x
    ensures x !in Fed(passes, r)
    decreases |passes|
  {
    if passes != [] {
      FedByThese(passes[..|passes| - 1], r, x);
    }
  }

  lemma AppendedCopies(s: seq<int>, x: int, n: nat)
    requires x !in s
    ensures Distinct(s + Copies(x, n)) <==> Distinct(s) && n <= 1
  {
    var t := s + Copies(x, n);
    assert forall i | 0 <= i < |s| :: t[i] == s[i];
    if n > 1 {
      assert t[|s|] == t[|s| + 1];
    }
  }

  /** A rule feeds no list twice exactly when every watching rule that accepts its group met it at one node. */
  lemma {:induction false} FedOnce(passes: seq<Pass>, r: Rule)
    requires WatchOnce(passes)
    ensures Distinct(Fed(passes, r))
      <==> forall i | 0 <= i < |passes| && passes[i].accepts(r.group) :: NodesOf(r, passes[i].forest) <= 1
    decreases |passes|
  {
    if passes != [] {
      var some, p := passes[..|passes| - 1], passes[|passes| - 1];
      FedOnce(some, r);
      FedByThese(some, r, p.watcher);
      AppendedCopies(Fed(some, r), p.watcher, Marks(p.accepts, r, p.forest));
      hide Distinct, NodesOf, Copies;
      assert forall i | 0 <= i < |some| :: passes[i] == some[i];
    }
  }

  /** The events of a rule are once on every group list exactly when every watching rule that accepts its group
      met it at one node of the tree. */
  lemma OnceByTree(reg: Registry, e: Eventinfo, info: RuleInfo, lists: map<int, OSList>, passes: seq<Pass>, r: Rule)
    requires r.watchers == Fed(passes, r) && WatchOnce(passes)
    requires OwnLists(lists) && IsRule(info, r, lists)
    requires reg.Valid() && reg.GroupsFilled(e, info, |info.groupPrevMatched|)
    ensures (forall l | l in reg.lists && !l.clearsSid :: Once(l.NewestFirst(), e))
      <==> forall i | 0 <= i < |passes| && passes[i].accepts(r.group) :: NodesOf(r, passes[i].forest) <= 1
  {
    hide *;
    FedOnce(passes, r);
    ListsDiffer(info, r, lists);
    GroupListsHoldOnce(reg, e, info);
  }
}
