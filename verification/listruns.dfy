/**
 The lists in memory as the pasts of `HistoryRuns`: registering, inserting, freeing and searching are its
 steps, so what is proved there about runs holds of this code.
 */
module ListRuns {
  import opened Wrappers
  import opened History
  import opened HistoryRuns
  import opened Events
  import opened SharedLists
  import opened EventLists
  import opened Searches

  /** `s` describes the events `es`, which look like `h`; `number` is their order of arrival. */
  ghost predicate Shows(es: seq<Eventinfo>, h: seq<Ev>, number: map<Eventinfo, nat>, s: Past) {
    && HistoryRuns.Valid(s) && s.evs == h && |h| == |es|
    && (forall i | 0 <= i < |es| :: es[i] in number && s.ids[i] == number[es[i]])
    && Numbers(number, s.next)
  }

  /** `s` describes the events `es` as they are. */
  ghost predicate Listed(es: seq<Eventinfo>, number: map<Eventinfo, nat>, s: Past)
    reads es`matched
  {
    Shows(es, Views(es), number, s)
  }

  /** Different events have different numbers. */
  ghost predicate Numbers(number: map<Eventinfo, nat>, next: nat) {
    && (forall e | e in number :: number[e] < next)
    && (forall e, f | e in number && f in number && number[e] == number[f] :: e == f)
  }

  /** An event is listed at most once. */
  ghost predicate Once(es: seq<Eventinfo>, e: Eventinfo) {
    forall i, j | 0 <= i < j < |es| :: !(es[i] == e && es[j] == e)
  }

  /** Listing every event once is having one entry for each. */
  lemma OnceIsAtMostOne(es: seq<Eventinfo>, h: seq<Ev>, number: map<Eventinfo, nat>, s: Past)
    requires Shows(es, h, number, s)
    ensures Distinct(es) <==> AtMost(s, 1)
  {
    if AtMost(s, 1) {
      forall i, j | 0 <= i < j < |es| ensures es[i] != es[j] {
        assert s.ids[j] < s.ids[i];
      }
    }
  }

  // -------------------------------------------------------------------------------------------
  // Which lists hold an event more than once

  /** A sid list never does: the event has one back-pointer for it. */
  lemma SidListsHoldOnce(r: Registry, l: OSList)
    requires r.Valid() && l in r.lists && l.clearsSid
    ensures Distinct(l.NewestFirst())
  {
    assert l.Valid();
    var es := l.NewestFirst();
    forall i, j | 0 <= i < j < |es| ensures es[i] != es[j] {
      var m, n := l.nodes[|es| - 1 - i], l.nodes[|es| - 1 - j];
      assert m in l.nodes && n in l.nodes && m != n;
      r.NodesAreOwnedOnce(m, n);
    }
  }

  /** A registered event is at most once on every group list exactly when no list occurs twice among those of
      its rule. */
  lemma GroupListsHoldOnce(r: Registry, e: Eventinfo, rule: RuleInfo)
    requires r.Valid() && r.GroupsFilled(e, rule, |rule.groupPrevMatched|)
    ensures (forall l | l in r.lists && !l.clearsSid :: Once(l.NewestFirst(), e)) <==> Distinct(rule.groupPrevMatched)
  {
    if Distinct(rule.groupPrevMatched) {
      forall l | l in r.lists && !l.clearsSid ensures Once(l.NewestFirst(), e) {
        DifferentPlaces(r, e, rule, l);
      }
    } else {
      var j, k :| 0 <= j < k < |rule.groupPrevMatched| && rule.groupPrevMatched[j] == rule.groupPrevMatched[k];
      TwoPlaces(r, e, rule, j, k);
    }
  }

  lemma DifferentPlaces(r: Registry, e: Eventinfo, rule: RuleInfo, l: OSList)
    requires r.Valid() && r.GroupsFilled(e, rule, |rule.groupPrevMatched|) && Distinct(rule.groupPrevMatched)
    requires l in r.lists && !l.clearsSid
    ensures Once(l.NewestFirst(), e)
  {
    assert l.Valid();
    var es := l.NewestFirst();
    forall i, j | 0 <= i < j < |es| && es[i] == e && es[j] == e ensures false {
      var m, n := l.nodes[|es| - 1 - i], l.nodes[|es| - 1 - j];
      assert m in l.nodes && n in l.nodes && m != n;
      assert r.NodeOk(m) && r.NodeOk(n) && r.EventOk(e);
      r.NodesAreOwnedOnce(m, n);
    }
  }

  lemma TwoPlaces(r: Registry, e: Eventinfo, rule: RuleInfo, j: nat, k: nat)
    requires r.Valid() && r.GroupsFilled(e, rule, |rule.groupPrevMatched|)
    requires j < k < |rule.groupPrevMatched| && rule.groupPrevMatched[j] == rule.groupPrevMatched[k]
    ensures rule.groupPrevMatched[j] in r.lists && !rule.groupPrevMatched[j].clearsSid
    ensures !Once(rule.groupPrevMatched[j].NewestFirst(), e)
  {
    var l := rule.groupPrevMatched[j];
    var m, n := e.groupNodes.value[j], e.groupNodes.value[k];
    assert r.EventOk(e) && r.NodeOk(m) && r.NodeOk(n);
    var a :| 0 <= a < |l.nodes| && l.nodes[a] == m;
    var b :| 0 <= b < |l.nodes| && l.nodes[b] == n;
    var es := l.NewestFirst();
    assert es[|es| - 1 - a] == e && es[|es| - 1 - b] == e && a != b;
  }

  /** An event without back-pointers is on no list, so not on the one it searches. */
  lemma UnregisteredIsUnlisted(r: Registry, my: Eventinfo, l: OSList)
    requires r.Valid() && my in r.live && my.sidNode == null && my.groupNodes == None && l in r.lists
    ensures my !in l.NewestFirst()
  {
    r.NoGroupNodes(my);
    var es := l.NewestFirst();
    forall i | 0 <= i < |es| ensures es[i] != my {
      assert l.nodes[|es| - 1 - i] in l.nodes;
    }
  }

  // -------------------------------------------------------------------------------------------
  // The steps

  /** New entries of `e` on top of what is kept of the old ones. */
  lemma Arrives(es: seq<Eventinfo>, h: seq<Ev>, number: map<Eventinfo, nat>, s: Past, e: Eventinfo, v: Ev, n: nat,
                keep: nat)
    requires Shows(es, h, number, s) && e !in number && keep <= |es| + n
    ensures Shows((Copies(e, n) + es)[..keep], (Copies(v, n) + h)[..keep], number[e := s.next], Pushed(s, v, n, keep))
  {
    var now, more, r := (Copies(e, n) + es)[..keep], number[e := s.next], Pushed(s, v, n, keep);
    forall i | 0 <= i < |now| ensures now[i] in more && r.ids[i] == more[now[i]] {
      if i >= n {
        assert now[i] == es[i - n] && r.ids[i] == s.ids[i - n];
      }
    }
  }

  lemma ViewsArrived(es: seq<Eventinfo>, e: Eventinfo, n: nat, keep: nat)
    requires keep <= |es| + n
    ensures Views((Copies(e, n) + es)[..keep]) == (Copies(e.View(), n) + Views(es))[..keep]
  {
    ViewsOfFirst(Copies(e, n) + es, keep);
    CopiesViews(es, e, n);
    hide Views, Copies;
  }

  lemma CopiesViews(es: seq<Eventinfo>, e: Eventinfo, n: nat)
    ensures Views(Copies(e, n) + es) == Copies(e.View(), n) + Views(es)
  {
    hide Views, Copies;
    var now, h := Copies(e, n) + es, Copies(e.View(), n) + Views(es);
    forall i | 0 <= i < |now| ensures Views(now)[i] == h[i] {
      if i < n {
        assert now[i] == e && h[i] == e.View();
      } else {
        assert now[i] == es[i - n] && h[i] == Views(es)[i - n];
      }
    }
  }

  lemma BackwardTail(ns: seq<OSListNode>, node: OSListNode, bound: nat)
    ensures Backward(TailAppended(ns, bound, node))
      == (Copies(node.data, 1) + Backward(ns))[..|TailAppended(ns, bound, node)|]
  {
  }

  lemma BackwardMore(ns: seq<OSListNode>, added: seq<OSListNode>, e: Eventinfo)
    requires forall i | 0 <= i < |added| :: added[i].data == e
    ensures Backward(ns + added) == (Copies(e, |added|) + Backward(ns))[..|ns| + |added|]
  {
  }

  lemma AppendIsPush(s: Past, v: Ev, bound: nat, keep: nat)
    requires HistoryRuns.Valid(s) && (bound > 0 ==> |s.evs| <= bound)
    requires keep == (if bound > 0 && |s.evs| == bound then bound else |s.evs| + 1)
    ensures Step(s, Append(v, bound)) == Pushed(s, v, 1, keep)
  {
    hide Pushed;
  }

  lemma AppendAllIsPush(s: Past, v: Ev, n: nat)
    requires HistoryRuns.Valid(s)
    ensures Step(s, AppendAll(v, n)) == Pushed(s, v, n, |s.evs| + n)
  {
    hide Pushed;
  }

  /** The list shows what arrived. */
  lemma ArrivesListed(es: seq<Eventinfo>, number: map<Eventinfo, nat>, s: Past, e: Eventinfo, n: nat, keep: nat)
    requires Listed(es, number, s) && e !in number && keep <= |es| + n
    ensures HistoryRuns.Valid(s) && |s.evs| == |es|
    ensures Listed((Copies(e, n) + es)[..keep], number[e := s.next], Pushed(s, e.View(), n, keep))
  {
    ViewsArrived(es, e, n, keep);
    Arrives(es, Views(es), number, s, e, e.View(), n, keep);
    hide Views, Pushed, Copies;
  }

  /** OSList_AddData on a bounded or unbounded list. */
  lemma AppendIsStep(ns: seq<OSListNode>, node: OSListNode, bound: nat, number: map<Eventinfo, nat>, s: Past)
    requires Listed(Backward(ns), number, s) && node.data !in number && (bound > 0 ==> |ns| <= bound)
    ensures Listed(Backward(TailAppended(ns, bound, node)), number[node.data := s.next],
      Step(s, Append(node.data.View(), bound)))
  {
    var keep := |TailAppended(ns, bound, node)|;
    BackwardTail(ns, node, bound);
    hide Listed, Step, Pushed, Views, Backward, Copies;
    ArrivesListed(Backward(ns), number, s, node.data, 1, keep);
    AppendIsPush(s, node.data.View(), bound, keep);
  }

  /** The same in every place where a group list occurs. */
  lemma AppendAllIsStep(ns: seq<OSListNode>, added: seq<OSListNode>, e: Eventinfo, number: map<Eventinfo, nat>, s: Past)
    requires Listed(Backward(ns), number, s) && e !in number && forall i | 0 <= i < |added| :: added[i].data == e
    ensures Listed(Backward(ns + added), number[e := s.next], Step(s, AppendAll(e.View(), |added|)))
  {
    BackwardMore(ns, added, e);
    hide Listed, Step, Pushed, Views, Backward, Copies;
    ArrivesListed(Backward(ns), number, s, e, |added|, |ns| + |added|);
    AppendAllIsPush(s, e.View(), |added|);
  }

  lemma AddIsPush(s: Past, v: Ev, max: int, maxFreq: int)
    requires HistoryRuns.Valid(s)
    ensures var k := |Inserted(s.evs, v, max, maxFreq)|;
      && k <= |s.evs| + 1 && Step(s, Add(v, max, maxFreq)) == Pushed(s, v, 1, k)
      && Inserted(s.evs, v, max, maxFreq) == (Copies(v, 1) + s.evs)[..k]
  {
    InsertedIsPrefix(s.evs, v, max, maxFreq);
    assert Copies(v, 1) == [v];
    hide Inserted, Pushed;
  }

  lemma FirstOfPushed(e: Eventinfo, es: seq<Eventinfo>, k: nat)
    requires k <= |es| + 1
    ensures FirstOf([e] + es, k) == (Copies(e, 1) + es)[..k]
  {
    assert Copies(e, 1) == [e];
  }

  /** OS_AddEvent_List. */
  lemma AddIsStep(es: seq<Eventinfo>, now: seq<Eventinfo>, e: Eventinfo, max: int, maxFreq: int,
                  number: map<Eventinfo, nat>, s: Past)
    requires Listed(es, number, s) && e !in number
    requires Views(now) == Inserted(Views(es), e.View(), max, maxFreq) && now == FirstOf([e] + es, |now|)
    ensures Listed(now, number[e := s.next], Step(s, Add(e.View(), max, maxFreq)))
  {
    ListedIsShown(es, number, s);
    AddIsPush(s, e.View(), max, maxFreq);
    FirstOfPushed(e, es, |now|);
    ArrivesListed(es, number, s, e, 1, |now|);
    hide *;
  }

  lemma ListedIsShown(es: seq<Eventinfo>, number: map<Eventinfo, nat>, s: Past)
    requires Listed(es, number, s)
    ensures HistoryRuns.Valid(s) && s.evs == Views(es)
  {
  }

  /** The entries of one event are next to each other. */
  lemma EntriesOf(es: seq<Eventinfo>, h: seq<Ev>, number: map<Eventinfo, nat>, s: Past, e: Eventinfo)
    requires Shows(es, h, number, s) && e in number
    ensures Newer(s.ids, number[e] + 1) <= Newer(s.ids, number[e]) <= |es|
    ensures forall i | 0 <= i < |es| :: es[i] == e <==> Newer(s.ids, number[e] + 1) <= i < Newer(s.ids, number[e])
  {
    NewerOrder(s.ids, number[e]);
    forall i | 0 <= i < |es| ensures es[i] == e <==> s.ids[i] == number[e] {
    }
  }

  lemma CutOutFirst<T>(s: seq<T>, a: nat, c: nat)
    requires a <= c <= |s| && c > 0
    ensures CutOut(s, a, c)
      == if a == 0 then CutOut(s[1..], 0, c - 1) else [s[0]] + CutOut(s[1..], a - 1, c - 1)
  {
  }

  lemma {:induction false} OnlyOutside(ns: seq<OSListNode>, keep: set<OSListNode>, a: nat, c: nat)
    requires a <= c <= |ns| && forall i | 0 <= i < |ns| :: ns[i] in keep <==> !(a <= i < c)
    ensures Only(ns, keep) == CutOut(ns, a, c)
  {
    if ns == [] {
    } else if c == 0 {
      OnlyAll(ns, keep);
      assert CutOut(ns, a, c) == ns;
    } else {
      var lo := if a == 0 then 0 else a - 1;
      assert forall i {:trigger ns[1..][i]} | 0 <= i < |ns| - 1 :: ns[1..][i] == ns[i + 1];
      OnlyOutside(ns[1..], keep, lo, c - 1);
      CutOutFirst(ns, a, c);
    }
  }

  /** Free_Eventinfo. */
  lemma FreeIsStep(ns: seq<OSListNode>, keep: set<OSListNode>, e: Eventinfo, number: map<Eventinfo, nat>, s: Past)
    requires Listed(Backward(ns), number, s) && e in number
    requires forall n | n in ns :: n in keep <==> n.data != e
    ensures var now := Backward(Only(ns, keep));
      Listed(now, number, Step(s, Free(number[e])))
  {
    var es := Backward(ns);
    EntriesOf(es, Views(es), number, s, e);
    hide Shows, Views, Backward, HistoryRuns.Valid, Step, Listed, Freed;
    var a, c := Newer(s.ids, number[e] + 1), Newer(s.ids, number[e]);
    forall i | 0 <= i < |ns| ensures ns[i] in keep <==> !(|ns| - c <= i < |ns| - a) {
      assert ns[i] in ns && es[|ns| - 1 - i] == ns[i].data;
    }
    OnlyOutside(ns, keep, |ns| - c, |ns| - a);
    BackwardCut(ns, a, c);
    RestIsListed(es, number, s, e, a, c);
    FreeIsFreed(s, number[e]);
  }

  lemma FreeIsFreed(s: Past, id: nat)
    requires HistoryRuns.Valid(s)
    ensures Step(s, Free(id)) == Freed(s, id)
  {
    hide Freed;
  }

  lemma BackwardCut(ns: seq<OSListNode>, a: nat, c: nat)
    requires a <= c <= |ns|
    ensures Backward(CutOut(ns, |ns| - c, |ns| - a)) == CutOut(Backward(ns), a, c)
  {
  }

  lemma RestIsListed(es: seq<Eventinfo>, number: map<Eventinfo, nat>, s: Past, e: Eventinfo, a: nat, c: nat)
    requires Listed(es, number, s) && e in number && a <= c <= |es|
    requires a == Newer(s.ids, number[e] + 1) && c == Newer(s.ids, number[e])
    ensures Listed(CutOut(es, a, c), number, Freed(s, number[e]))
  {
    CutViews(es, a, c);
    FreedIs(s, number[e]);
    CutNumbers(es, number, s, a, c);
    hide Views, Freed, HistoryRuns.Valid, Newer, CutOut;
  }

  lemma FreedIs(s: Past, id: nat)
    requires HistoryRuns.Valid(s)
    ensures var a, c, r := Newer(s.ids, id + 1), Newer(s.ids, id), Freed(s, id);
      a <= c <= |s.evs| == |s.ids| && r.evs == CutOut(s.evs, a, c) && r.ids == CutOut(s.ids, a, c)
  {
    NewerOrder(s.ids, id);
  }

  lemma CutNumbers(es: seq<Eventinfo>, number: map<Eventinfo, nat>, s: Past, a: nat, c: nat)
    requires a <= c <= |es| == |s.ids| && forall i | 0 <= i < |es| :: es[i] in number && s.ids[i] == number[es[i]]
    ensures forall i | 0 <= i < |CutOut(es, a, c)| ::
      CutOut(es, a, c)[i] in number && CutOut(s.ids, a, c)[i] == number[CutOut(es, a, c)[i]]
  {
    var now := CutOut(es, a, c);
    forall i | 0 <= i < |now| ensures now[i] in number && CutOut(s.ids, a, c)[i] == number[now[i]] {
      assert now[i] == es[if i < a then i else i + (c - a)];
    }
  }

  lemma CutViews(es: seq<Eventinfo>, a: nat, c: nat)
    requires a <= c <= |es|
    ensures Views(CutOut(es, a, c)) == CutOut(Views(es), a, c)
  {
    var now, h := CutOut(es, a, c), CutOut(Views(es), a, c);
    forall i | 0 <= i < |now| ensures now[i].View() == h[i] {
      assert now[i] == es[if i < a then i else i + (c - a)];
    }
  }

  /** Marking the heap is marking the list, for an event that is not listed itself. */
  lemma MarksAreMarked(rule: RuleInfo, my: Eventinfo, es: seq<Eventinfo>, h: seq<Ev>, number: map<Eventinfo, nat>,
                       s: Past, mine: int, found: Option<nat>)
    requires Shows(es, h, number, s) && my !in es && (found.Some? ==> found.value < |es|)
    requires forall k | 0 <= k < |es| :: h[k] == es[k].View().(matched := h[k].matched)
    requires MarksSet(rule, my, es, h, mine, if found.Some? then es[found.value] else null)
    ensures Views(es) == Marked(h, s.ids, found, rule.watch.level)
  {
    ShownLengths(es, h, number, s);
    hide Views, Marked, HistoryRuns.Valid;
    forall k | 0 <= k < |es|
      ensures es[k].View() == Marked(h, s.ids, found, rule.watch.level)[k]
    {
      MarkIsMarked(rule, my, es, h, number, s, mine, found, k);
    }
  }

  lemma ShownLengths(es: seq<Eventinfo>, h: seq<Ev>, number: map<Eventinfo, nat>, s: Past)
    requires Shows(es, h, number, s)
    ensures |es| == |h| == |s.ids|
  {
  }

  lemma MarkIsMarked(rule: RuleInfo, my: Eventinfo, es: seq<Eventinfo>, h: seq<Ev>, number: map<Eventinfo, nat>,
                     s: Past, mine: int, found: Option<nat>, k: nat)
    requires Shows(es, h, number, s) && my !in es && (found.Some? ==> found.value < |es|) && k < |es| == |h| == |s.ids|
    requires h[k] == es[k].View().(matched := h[k].matched)
    requires MarksSet(rule, my, es, h, mine, if found.Some? then es[found.value] else null)
    ensures es[k].View() == Marked(h, s.ids, found, rule.watch.level)[k]
  {
    SameNumber(es, h, number, s, k, 0);
    if found.Some? { SameNumber(es, h, number, s, k, found.value); }
    hide Shows;
    assert es[k] != my;
  }

  lemma SameNumber(es: seq<Eventinfo>, h: seq<Ev>, number: map<Eventinfo, nat>, s: Past, i: nat, k: nat)
    requires Shows(es, h, number, s) && i < |es| && k < |es|
    ensures es[i] == es[k] <==> s.ids[i] == s.ids[k]
  {
  }

  /** A finished search. */
  lemma SearchIsStep(scan: Scan, rule: RuleInfo, my: Eventinfo, es: seq<Eventinfo>, was: Before, ret: Eventinfo?,
                     number: map<Eventinfo, nat>, s: Past)
    requires Done(scan, rule, my, es, was, ret) && my !in es && Shows(es, was.h, number, s)
    requires forall k | 0 <= k < |es| :: was.h[k] == es[k].View().(matched := was.h[k].matched)
    ensures var op := Search(scan, rule.watch, my.attrs, my.time);
      && Listed(es, number, Step(s, op))
      && (ret != null <==> Fires(s, op))
  {
    hide Found, SavedLogs, FinalCount, Evidence, MarksSet, Marked, Distinct, Views;
    FoundInHistory(scan, rule.watch, my.attrs, my.time, was.h);
    MarksAreMarked(rule, my, es, was.h, number, s, was.mine, Found(scan, rule.watch, my.attrs, my.time, was.h));
  }

  /** Marking one event is at most one step for a list that knows the events in `number`. */
  ghost function MarkIn(e: Eventinfo, level: int, number: map<Eventinfo, nat>): (ops: seq<Op>) {
    if e in number then [Op.Mark(number[e], level)] else []
  }

  /** What a search over `es` that returned `ret` does to another list: marks for the event it found and for
      the head, where they are listed. */
  ghost function MarksFrom(es: seq<Eventinfo>, ret: Eventinfo?, level: int, number: map<Eventinfo, nat>): seq<Op> {
    if ret == null || es == [] then [] else MarkIn(ret, level, number) + MarkIn(es[0], level, number)
  }

  lemma MarkInMarks(other: seq<Eventinfo>, h: seq<Ev>, number: map<Eventinfo, nat>, s: Past, e: Eventinfo, level: int)
    requires Shows(other, h, number, s)
    ensures var r := Run(s, MarkIn(e, level, number));
      && Shows(other, r.evs, number, r)
      && forall k | 0 <= k < |other| :: r.evs[k] == if other[k] == e then h[k].(matched := level) else h[k]
  {
    if e in number {
      var op := Op.Mark(number[e], level);
      assert Run(s, [op]) == Step(s, op) by { assert [op][1..] == []; }
    }
  }

  lemma BothMarked(es: seq<Eventinfo>, ret: Eventinfo?, level: int, other: seq<Eventinfo>, h: seq<Ev>,
                   number: map<Eventinfo, nat>, s: Past)
    requires Shows(other, h, number, s) && |h| == |other| && (ret != null ==> ret in es)
    ensures var r := Run(s, MarksFrom(es, ret, level, number));
      && Shows(other, r.evs, number, r) && |r.evs| == |other|
      && forall k | 0 <= k < |other| :: r.evs[k] ==
           if ret != null && (other[k] == ret || other[k] == es[0]) then h[k].(matched := level) else h[k]
  {
    if ret != null {
      var one := MarkIn(ret, level, number);
      MarkInMarks(other, h, number, s, ret, level);
      MarkInMarks(other, Run(s, one).evs, number, Run(s, one), es[0], level);
      RunMore(s, one, MarkIn(es[0], level, number));
    }
  }

  /** A finished search over `es` leaves every other list with these marks, and with nothing else. */
  lemma SearchElsewhere(scan: Scan, rule: RuleInfo, my: Eventinfo, es: seq<Eventinfo>, was: Before, ret: Eventinfo?,
                        other: seq<Eventinfo>, h: seq<Ev>, number: map<Eventinfo, nat>, s: Past)
    requires Done(scan, rule, my, es, was, ret) && my !in other && Shows(other, h, number, s)
    requires forall k | 0 <= k < |other| :: h[k] == other[k].View().(matched := h[k].matched)
    requires forall k | 0 <= k < |other| && other[k] !in es :: h[k].matched == other[k].matched
    requires forall k, j | 0 <= k < |other| && 0 <= j < |es| && other[k] == es[j] :: h[k].matched == was.h[j].matched
    ensures Listed(other, number, Run(s, MarksFrom(es, ret, rule.watch.level, number)))
  {
    hide Found, SavedLogs, FinalCount, Evidence, Run, HistoryRuns.Valid, Views;
    FoundInHistory(scan, rule.watch, my.attrs, my.time, was.h);
    BothMarked(es, ret, rule.watch.level, other, h, number, s);
    var r := Run(s, MarksFrom(es, ret, rule.watch.level, number));
    forall k | 0 <= k < |other| ensures Views(other)[k] == r.evs[k] {
      if other[k] in es {
        var j :| 0 <= j < |es| && es[j] == other[k];
      }
    }
    assert Views(other) == r.evs;
  }

  lemma FoundInHistory(scan: Scan, w: Watch, my: Attrs, now: int, h: seq<Ev>)
    ensures var found := Found(scan, w, my, now, h); found.Some? ==> found.value < |h|
  {
  }

  // -------------------------------------------------------------------------------------------
  // The operations of the analysis stage, as one list sees them

  /** The step that registering an event of `rule` is for the list `l`. */
  ghost function Registration(rule: RuleInfo, l: OSList, e: Ev): Op {
    if l == rule.sidPrevMatched then Append(e, l.maxSize) else AppendAll(e, Places(rule.groupPrevMatched, l))
  }

  /** How often a list occurs among the lists of a rule. */
  function Places(ls: seq<OSList>, l: OSList): nat {
    if ls == [] then 0 else (if ls[|ls| - 1] == l then 1 else 0) + Places(ls[..|ls| - 1], l)
  }

  lemma {:induction false} EnteredPlaces(ls: seq<OSList>, ns: seq<OSListNode?>, l: OSList, j: nat)
    requires j <= |ls| == |ns|
    ensures |Entered(ls, ns, l, j)| == Places(ls[..j], l)
    ensures forall n | n in Entered(ls, ns, l, j) :: exists k :: 0 <= k < j && ns[k] == n
  {
    if j > 0 {
      EnteredPlaces(ls, ns, l, j - 1);
      assert ls[..j][..j - 1] == ls[..j - 1];
    }
  }

  /** The nodes it got in a list. */
  lemma EnteredAre(r: Registry, lf: Eventinfo, rule: RuleInfo, l: OSList) returns (added: seq<OSListNode>)
    requires r.Valid() && r.GroupsFilled(lf, rule, |rule.groupPrevMatched|)
    ensures added == Entered(rule.groupPrevMatched, GroupNodes(lf), l, |rule.groupPrevMatched|)
    ensures |added| == Places(rule.groupPrevMatched, l) && forall i | 0 <= i < |added| :: added[i].data == lf
  {
    var ns := Entered(rule.groupPrevMatched, GroupNodes(lf), l, |rule.groupPrevMatched|);
    EnteredPlaces(rule.groupPrevMatched, GroupNodes(lf), l, |rule.groupPrevMatched|);
    assert rule.groupPrevMatched[..|rule.groupPrevMatched|] == rule.groupPrevMatched;
    assert r.EventOk(lf);
    forall i | 0 <= i < |ns| ensures ns[i] != null && ns[i].data == lf {
      assert ns[i] in ns;
    }
    added := seq(|ns|, i requires 0 <= i < |ns| => ns[i]);
    assert added == ns;
  }

  lemma SidIsRegistered(r: Registry, lf: Eventinfo, rule: RuleInfo, l: OSList, ns: seq<OSListNode>,
                        number: map<Eventinfo, nat>, s: Past)
    requires r.Valid() && lf in r.live && lf.generatedRule == rule && l == rule.sidPrevMatched && lf.sidNode != null
    requires l.nodes == TailAppended(ns, l.maxSize, lf.sidNode) && (l.maxSize > 0 ==> |ns| <= l.maxSize)
    requires Listed(Backward(ns), number, s) && lf !in number
    ensures Listed(l.NewestFirst(), number[lf := s.next], Step(s, Registration(rule, l, lf.View())))
  {
    r.SidNodePlace(lf);
    AppendIsStep(ns, lf.sidNode, l.maxSize, number, s);
    hide Step, Listed, Registry.Valid, TailAppended, Backward;
  }

  lemma GroupsAreRegistered(r: Registry, lf: Eventinfo, rule: RuleInfo, l: OSList, ns: seq<OSListNode>,
                            number: map<Eventinfo, nat>, s: Past)
    requires r.Valid() && l != rule.sidPrevMatched
    requires if rule.groupPrevMatched == [] then lf.groupNodes == None
      else r.GroupsFilled(lf, rule, |rule.groupPrevMatched|)
    requires l.nodes == ns + Entered(rule.groupPrevMatched, GroupNodes(lf), l, |rule.groupPrevMatched|)
    requires Listed(Backward(ns), number, s) && lf !in number
    ensures Listed(l.NewestFirst(), number[lf := s.next], Step(s, Registration(rule, l, lf.View())))
  {
    var added: seq<OSListNode> := [];
    if rule.groupPrevMatched != [] {
      added := EnteredAre(r, lf, rule, l);
    }
    AppendAllIsStep(ns, added, lf, number, s);
    hide Step, Listed, Registry.Valid, Registry.GroupsFilled, Backward;
  }

  lemma ListBound(r: Registry, l: OSList)
    requires r.Valid() && l in r.lists
    ensures (l.maxSize > 0 ==> |l.nodes| <= l.maxSize) && l.NewestFirst() == Backward(l.nodes)
    ensures forall n | n in l.nodes :: n in r.linked
  {
    assert l.Valid();
  }

  /** Registering a matched event. */
  method Register(r: Registry, lf: Eventinfo, rule: RuleInfo, ghost l: OSList, ghost number: map<Eventinfo, nat>,
                  ghost s: Past)
    requires r.Valid() && r.Loaded(rule) && lf in r.live && lf.generatedRule == rule && lf.sidNode == null
    requires lf.groupNodes == None
    requires l in r.lists && Listed(l.NewestFirst(), number, s) && lf !in number
    modifies r`linked, r.lists, r.linked, r.live`sidNode, lf`groupNodes
    ensures r.Valid()
    ensures Listed(l.NewestFirst(), number[lf := s.next], Step(s, Registration(rule, l, lf.View())))
  {
    hide *;
    ghost var ns := l.nodes;
    ListBound(r, l);
    r.RegisterMatched(lf, rule);
    if l == rule.sidPrevMatched {
      SidIsRegistered(r, lf, rule, l, ns, number, s);
    } else {
      GroupsAreRegistered(r, lf, rule, l, ns, number, s);
    }
  }

  /** Freeing these events, as a list sees it that knows the events in `number`. */
  ghost function Frees(gone: seq<Eventinfo>, number: map<Eventinfo, nat>): (ops: seq<Op>) {
    if gone == [] then []
    else Frees(gone[..|gone| - 1], number) + FreeIn(gone[|gone| - 1], number)
  }

  ghost function FreeIn(e: Eventinfo, number: map<Eventinfo, nat>): (ops: seq<Op>) {
    if e in number then [Op.Free(number[e])] else []
  }

  lemma FreeInFrees(ns: seq<OSListNode>, linked: set<OSListNode>, e: Eventinfo, number: map<Eventinfo, nat>, s: Past)
    requires Listed(Backward(ns), number, s) && forall n | n in ns :: n in linked
    ensures Listed(Backward(Only(ns, NodesLess(linked, [e]))), number, Run(s, FreeIn(e, number)))
  {
    var keep := NodesLess(linked, [e]);
    if e in number {
      FreeIsStep(ns, keep, e, number, s);
      var op := Op.Free(number[e]);
      assert Run(s, [op]) == Step(s, op) by {
        hide Step;
        assert [op][1..] == [];
      }
    } else {
      ListedIsNumbered(ns, number, s);
      hide Listed, Backward;
      OnlyAll(ns, keep);
    }
  }

  lemma ListedIsNumbered(ns: seq<OSListNode>, number: map<Eventinfo, nat>, s: Past)
    requires Listed(Backward(ns), number, s)
    ensures forall n | n in ns :: n.data in number
  {
    forall i | 0 <= i < |ns| ensures ns[i].data in number {
      assert Backward(ns)[|ns| - 1 - i] == ns[i].data;
    }
  }

  lemma FreesNone(number: map<Eventinfo, nat>, s: Past)
    requires HistoryRuns.Valid(s)
    ensures Run(s, Frees([], number)) == s
  {
  }

  lemma FreesMore(some: seq<Eventinfo>, e: Eventinfo, number: map<Eventinfo, nat>, s: Past)
    requires HistoryRuns.Valid(s)
    ensures Run(s, Frees(some + [e], number)) == Run(Run(s, Frees(some, number)), FreeIn(e, number))
  {
    assert (some + [e])[..|some|] == some;
    RunMore(s, Frees(some, number), FreeIn(e, number));
  }

  lemma FreesOneMore(ns: seq<OSListNode>, linked: set<OSListNode>, some: seq<Eventinfo>, e: Eventinfo,
                     number: map<Eventinfo, nat>, s: Past)
    requires HistoryRuns.Valid(s)
    requires Listed(Backward(Only(ns, NodesLess(linked, some))), number, Run(s, Frees(some, number)))
    ensures Listed(Backward(Only(ns, NodesLess(linked, some + [e]))), number, Run(s, Frees(some + [e], number)))
  {
    hide *;
    var left := NodesLess(linked, some);
    FreesMore(some, e, number, s);
    NodesLessMore(linked, some, e);
    OnlyKeeps(ns, left);
    OnlyTwice(ns, left, NodesLess(linked, some + [e]));
    FreeInFrees(Only(ns, left), left, e, number, Run(s, Frees(some, number)));
  }

  /** Every list sees the events that leave one after the other as so many steps. */
  lemma {:induction false} FreesAreSteps(ns: seq<OSListNode>, linked: set<OSListNode>, gone: seq<Eventinfo>,
                                         number: map<Eventinfo, nat>, s: Past)
    requires Listed(Backward(ns), number, s) && forall n | n in ns :: n in linked
    ensures Listed(Backward(Only(ns, NodesLess(linked, gone))), number, Run(s, Frees(gone, number)))
    decreases |gone|
  {
    ListedIsShown(Backward(ns), number, s);
    hide *;
    if gone == [] {
      FreesNone(number, s);
      NoNodesLess(linked);
      OnlyAll(ns, linked);
    } else {
      var some, e := gone[..|gone| - 1], gone[|gone| - 1];
      assert gone == some + [e];
      FreesAreSteps(ns, linked, some, number, s);
      FreesOneMore(ns, linked, some, e, number, s);
    }
  }

  lemma IsDiscarded(r: Registry, linked: set<OSListNode>, lf: Eventinfo, l: OSList, ns: seq<OSListNode>,
                    number: map<Eventinfo, nat>, s: Past)
    requires r.linked == NodesLess(linked, [lf]) && forall n | n in ns :: n in linked
    requires l.nodes == Only(ns, r.linked) && Listed(Backward(ns), number, s) && lf in number
    ensures Listed(l.NewestFirst(), number, Step(s, Free(number[lf])))
  {
    hide Listed, Step, Only, Backward;
    FreeIsStep(ns, r.linked, lf, number, s);
  }

  /** Freeing an event. */
  method Discard(r: Registry, lf: Eventinfo, ghost l: OSList, ghost number: map<Eventinfo, nat>, ghost s: Past)
    requires r.Valid() && lf in r.live
    requires l in r.lists && Listed(l.NewestFirst(), number, s) && lf in number
    modifies r`linked, r`live, r.lists, r.linked, lf`sidNode, lf`groupNodes, lf`freed
    ensures r.Valid()
    ensures Listed(l.NewestFirst(), number, Step(s, Free(number[lf])))
  {
    hide *;
    ghost var ns, linked := l.nodes, r.linked;
    ListBound(r, l);
    r.FreeEvent(lf);
    IsDiscarded(r, linked, lf, l, ns, number, s);
  }

  lemma IsInserted(history: EventList, es: seq<Eventinfo>, h: seq<Ev>, lf: Eventinfo, maxFreq: int,
                   number: map<Eventinfo, nat>, s: Past)
    requires Listed(es, number, s) && lf !in number && h == Views(es)
    requires Views(history.Newest()) == Inserted(h, lf.View(), history.memoryMaxSize, maxFreq)
    requires history.Newest() == FirstOf([lf] + es, |history.nodes|)
    ensures Listed(history.Newest(), number[lf := s.next], Step(s, Add(lf.View(), history.memoryMaxSize, maxFreq)))
  {
    hide Listed, Step, Inserted, FirstOf, Views;
    AddIsStep(es, history.Newest(), lf, history.memoryMaxSize, maxFreq, number, s);
  }

  lemma AreDiscarded(r: Registry, live: set<Eventinfo>, linked: set<OSListNode>, gone: seq<Eventinfo>,
                     l: OSList, ns: seq<OSListNode>, number: map<Eventinfo, nat>, s: Past)
    requires Lost(r, live, linked, gone) && forall n | n in ns :: n in linked
    requires l.nodes == Only(ns, r.linked) && Listed(Backward(ns), number, s)
    ensures Listed(l.NewestFirst(), number, Run(s, Frees(gone, number)))
  {
    hide Listed, Run, Only, Backward, NodesLess;
    FreesAreSteps(ns, linked, gone, number, s);
  }

  /** Inserting a matched event into the history of its shard. Every shared list `l`, which knows the events in
      `seen`, loses what the history drops. */
  method Insert(history: EventList, lf: Eventinfo, maxFreq: int, r: Registry, ghost number: map<Eventinfo, nat>,
                ghost s: Past, ghost l: OSList, ghost seen: map<Eventinfo, nat>, ghost t: Past)
    requires r.Valid() && history.Owns(r) && lf in r.live && lf !in history.Newest()
    requires Listed(history.Newest(), number, s) && lf !in number
    requires l in r.lists && Listed(l.NewestFirst(), seen, t)
    modifies history`first, history`last, history`memoryUsed, history`nodes
    modifies history.nodes`next, history.nodes`prev, history.nodes`freed
    modifies lf`listRetained, r`linked, r`live, r.lists, r.linked, r.live`sidNode, r.live`groupNodes, r.live`freed
    ensures r.Valid() && history.Owns(r)
    ensures Listed(history.Newest(), number[lf := s.next], Step(s, Add(lf.View(), history.memoryMaxSize, maxFreq)))
    ensures var gone := RestOf([lf] + old(history.Newest()), |history.nodes|);
      Listed(l.NewestFirst(), seen, Run(t, Frees(gone, seen)))
  {
    hide *;
    ghost var es := history.Newest();
    ghost var h := Views(es);
    ghost var ns, live, linked := l.nodes, r.live, r.linked;
    ListBound(r, l);
    history.Add(lf, maxFreq, r);
    IsInserted(history, es, h, lf, maxFreq, number, s);
    AreDiscarded(r, live, linked, RestOf([lf] + es, |history.nodes|), l, ns, seen, t);
  }
}
