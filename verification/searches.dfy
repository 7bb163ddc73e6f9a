/**
 The three frequency searches, proved against what `History` says a search over a newest-first
 sequence of events finds, marks and saves.
 */
module Searches {
  import opened Wrappers
  import opened History
  import opened Events
  import opened EventLists

  /** The walk has passed the newest `i` events without stopping or firing. */
  ghost predicate Walked(scan: Scan, rule: RuleInfo, my: Eventinfo, h: seq<Ev>, i: nat)
    reads rule, rule.lastEvents
  {
    && i <= |h|
    && (forall k | 0 <= k < i :: !Stops(rule.watch, my.time, h[k]))
    && var q := Hits(scan, rule.watch, my.attrs, h, i);
       && rule.freqCount == |q| <= rule.watch.frequency
       && rule.BufferOk()
       && rule.Holds(Lines(h, q, Kept(|q|)))
  }

  /** What is there before a search: the history it will see, the mark and the alert context of its event. */
  datatype Before = Before(h: seq<Ev>, mine: int, context: Option<seq<Option<string>>>)

  /** What a search over the events `es`, seen as `h`, promises; `context` is the alert context `my` had before. */
  ghost predicate Outcome(scan: Scan, rule: RuleInfo, my: Eventinfo, es: seq<Eventinfo>, h: seq<Ev>,
                          context: Option<seq<Option<string>>>, ret: Eventinfo?)
    reads rule, rule.lastEvents, my
    requires |h| == |es|
  {
    var w := rule.watch;
    var found, logs := Found(scan, w, my.attrs, my.time, h), SavedLogs(scan, w, my.attrs, my.time, h);
    && ret == (if found.Some? then es[found.value] else null)
    && rule.freqCount == FinalCount(scan, w, |Evidence(scan, w, my.attrs, my.time, h)|)
    && rule.BufferOk()
    && if found.None? then
         rule.Holds(logs) && my.alertLastEvents == context
       else
         && rule.Holds([])
         && (rule.lastEvents == null || logs == [] ==> my.alertLastEvents == context)
         && (rule.lastEvents != null && logs != [] ==>
               my.alertLastEvents.Some? && Lists(my.alertLastEvents.value, logs))
  }

  /** Every search starts with a zero counter and an empty buffer. */
  method StartWalk(ghost scan: Scan, rule: RuleInfo, ghost my: Eventinfo, ghost es: seq<Eventinfo>, ghost was: Before)
    requires rule.BufferOk() && was == BeforeSearch(my, es)
    requires was.context.Some? ==> Terminated(was.context.value)
    modifies rule`freqCount, rule`lastEventsCopied, rule.lastEvents
    ensures Walking(scan, rule, my, es, was, 0)
  {
    rule.freqCount := 0;
    rule.FreeLastEvents();
  }

  /** A walk that stops, or comes to its end, has found nothing. */
  lemma WalkStops(scan: Scan, rule: RuleInfo, my: Eventinfo, es: seq<Eventinfo>, h: seq<Ev>, i: nat)
    requires |h| == |es| && Walked(scan, rule, my, h, i)
    requires i < |h| ==> Stops(rule.watch, my.time, h[i])
    ensures Outcome(scan, rule, my, es, h, my.alertLastEvents, null)
  {
    WalkAtLeast(rule.watch, my.time, h, i);
    assert WalkLength(rule.watch, my.time, h) == i;
  }

  lemma WalkSkips(scan: Scan, rule: RuleInfo, my: Eventinfo, h: seq<Ev>, i: nat)
    requires Walked(scan, rule, my, h, i) && i < |h|
    requires !Stops(rule.watch, my.time, h[i]) && !Qualifies(scan, rule.watch, my.attrs, h[i].attrs)
    ensures Walked(scan, rule, my, h, i + 1)
  {
  }

  /** How many lines are in the buffer after `n` hits. */
  function Kept(n: nat): nat {
    if n < MAX_LAST_EVENTS then n else MAX_LAST_EVENTS
  }

  /** The event at `i` qualifies and its line is saved, but the hit is not counted yet. */
  ghost predicate Saved(scan: Scan, rule: RuleInfo, my: Eventinfo, h: seq<Ev>, i: nat)
    reads rule, rule.lastEvents
  {
    && i < |h|
    && (forall k | 0 <= k <= i :: !Stops(rule.watch, my.time, h[k]))
    && Qualifies(scan, rule.watch, my.attrs, h[i].attrs)
    && rule.freqCount == |Hits(scan, rule.watch, my.attrs, h, i)| <= rule.watch.frequency
    && rule.BufferOk()
    && rule.Holds(Lines(h, Hits(scan, rule.watch, my.attrs, h, i + 1), Kept(rule.freqCount + 1)))
  }

  lemma LinesGrow(h: seq<Ev>, q: seq<nat>, i: nat)
    requires i < |h| && forall t | 0 <= t < |q| :: q[t] < |h|
    ensures Lines(h, q + [i], |q| + 1) == Lines(h, q, |q|) + [h[i].fullLog]
    ensures forall n | 0 <= n <= |q| :: Lines(h, q + [i], n) == Lines(h, q, n)
  {
  }

  method SaveHit(ghost scan: Scan, rule: RuleInfo, ghost my: Eventinfo, ghost h: seq<Ev>, ghost i: nat, log: string)
    requires Walked(scan, rule, my, h, i) && i < |h|
    requires !Stops(rule.watch, my.time, h[i]) && Qualifies(scan, rule.watch, my.attrs, h[i].attrs)
    requires log == h[i].fullLog
    modifies rule`lastEventsCopied, rule.lastEvents
    ensures Saved(scan, rule, my, h, i) && rule.freqCount <= rule.watch.frequency
  {
    hide RuleInfo.Holds, RuleInfo.BufferOk, Stops, Qualifies, Lines;
    ghost var q := Hits(scan, rule.watch, my.attrs, h, i);
    LinesGrow(h, q, i);
    if rule.freqCount <= 10 {
      rule.SaveLine(Lines(h, q, |q|), log, rule.freqCount);
    }
  }

  /** The walk stands at the event the search returns. */
  lemma FoundWalking(scan: Scan, rule: RuleInfo, my: Eventinfo, h: seq<Ev>, i: nat)
    requires Walked(scan, rule, my, h, i) && i < |h| && !scan.LastSids?
    requires !Stops(rule.watch, my.time, h[i]) && Qualifies(scan, rule.watch, my.attrs, h[i].attrs)
    requires rule.freqCount == rule.watch.frequency
    ensures Found(scan, rule.watch, my.attrs, my.time, h) == Some(i)
    ensures rule.freqCount == FinalCount(scan, rule.watch, |Evidence(scan, rule.watch, my.attrs, my.time, h)|)
    ensures rule.Holds(SavedLogs(scan, rule.watch, my.attrs, my.time, h))
  {
    hide RuleInfo.Holds, RuleInfo.BufferOk, Qualifies;
    WalkAtLeast(rule.watch, my.time, h, i + 1);
    FoundHere(scan, rule.watch, my.attrs, my.time, h, i);
    var q, e := Hits(scan, rule.watch, my.attrs, h, i), Evidence(scan, rule.watch, my.attrs, my.time, h);
    assert forall t | 0 <= t < |q| :: e[t] == q[t];
    assert Lines(h, q, Kept(|q|)) == Lines(h, e, Kept(|q|));
  }

  lemma FoundSaved(rule: RuleInfo, my: Eventinfo, h: seq<Ev>, i: nat)
    requires Saved(LastSids, rule, my, h, i) && rule.freqCount == rule.watch.frequency
    ensures Found(LastSids, rule.watch, my.attrs, my.time, h) == Some(i)
    ensures rule.freqCount + 1
      == FinalCount(LastSids, rule.watch, |Evidence(LastSids, rule.watch, my.attrs, my.time, h)|)
    ensures rule.Holds(SavedLogs(LastSids, rule.watch, my.attrs, my.time, h))
  {
    hide RuleInfo.Holds, RuleInfo.BufferOk, Qualifies;
    WalkAtLeast(rule.watch, my.time, h, i + 1);
    FoundHere(LastSids, rule.watch, my.attrs, my.time, h, i);
    var q, e := Hits(LastSids, rule.watch, my.attrs, h, i + 1), Evidence(LastSids, rule.watch, my.attrs, my.time, h);
    assert forall t | 0 <= t < |q| :: e[t] == q[t];
    assert Lines(h, q, Kept(|q|)) == Lines(h, e, Kept(|q|));
  }

  /** The saved lines leave with the firing event. */
  method Deliver(ghost scan: Scan, rule: RuleInfo, my: Eventinfo, ghost es: seq<Eventinfo>, ghost h: seq<Ev>,
                 ghost i: nat)
    requires |h| == |es| && i < |h| && rule.BufferOk()
    requires my.alertLastEvents.Some? ==> Terminated(my.alertLastEvents.value)
    requires Found(scan, rule.watch, my.attrs, my.time, h) == Some(i)
    requires rule.freqCount == FinalCount(scan, rule.watch, |Evidence(scan, rule.watch, my.attrs, my.time, h)|)
    requires rule.Holds(SavedLogs(scan, rule.watch, my.attrs, my.time, h))
    modifies rule`lastEventsCopied, rule.lastEvents, my`alertLastEvents
    ensures Outcome(scan, rule, my, es, h, old(my.alertLastEvents), es[i])
  {
    hide Found, SavedLogs, FinalCount, Evidence;
    rule.MoveLastEvents(my);
  }

  /** A search marked what it found, the head and the searching event, and nothing else: `h` and `mine` are
      the marks before it. */
  ghost predicate MarksSet(rule: RuleInfo, my: Eventinfo, es: seq<Eventinfo>, h: seq<Ev>, mine: int, ret: Eventinfo?)
    reads es`matched, my`matched
    requires |h| == |es|
  {
    && my.matched == (if ret != null then rule.watch.level else mine)
    && forall k | 0 <= k < |es| ::
         es[k].matched == if ret != null && (es[k] == ret || es[k] == es[0] || es[k] == my) then rule.watch.level
           else h[k].matched
  }

  lemma NothingMarked(rule: RuleInfo, my: Eventinfo, es: seq<Eventinfo>, h: seq<Ev>)
    requires h == Views(es)
    ensures MarksSet(rule, my, es, h, my.matched, null)
  {
  }

  method CountHit(ghost scan: Scan, rule: RuleInfo, ghost my: Eventinfo, ghost h: seq<Ev>, ghost i: nat)
    requires Saved(scan, rule, my, h, i) && rule.freqCount < rule.watch.frequency
    modifies rule`freqCount
    ensures Walked(scan, rule, my, h, i + 1)
  {
    rule.freqCount := rule.freqCount + 1;
  }

  method Mark(rule: RuleInfo, my: Eventinfo, lf: Eventinfo, first: Eventinfo, ghost es: seq<Eventinfo>)
    requires es != [] && first == es[0] && lf in es
    modifies my`matched, lf`matched, first`matched
    ensures MarksSet(rule, my, es, old(Views(es)), old(my.matched), lf)
  {
    my.matched := rule.watch.level;
    lf.matched := rule.watch.level;
    first.matched := rule.watch.level;
  }

  /** The state of a search before it looks at event `i`: nothing but the rule's own fields has changed. */
  ghost predicate Walking(scan: Scan, rule: RuleInfo, my: Eventinfo, es: seq<Eventinfo>, was: Before, i: nat)
    reads rule, rule.lastEvents, my, es`matched
  {
    && was.h == Views(es)
    && my.matched == was.mine && my.alertLastEvents == was.context
    && (was.context.Some? ==> Terminated(was.context.value))
    && Walked(scan, rule, my, was.h, i)
  }

  /** The promise of a search that returns `ret`. */
  ghost predicate Done(scan: Scan, rule: RuleInfo, my: Eventinfo, es: seq<Eventinfo>, was: Before, ret: Eventinfo?)
    reads rule, rule.lastEvents, my, es`matched
  {
    && |was.h| == |es|
    && Outcome(scan, rule, my, es, was.h, was.context, ret)
    && MarksSet(rule, my, es, was.h, was.mine, ret)
  }

  /** The event at position `i` of `es` is the one Search_LastSids returns; its own line is saved too. */
  method FireSaved(rule: RuleInfo, my: Eventinfo, lf: Eventinfo, first: Eventinfo, ghost es: seq<Eventinfo>,
                   ghost was: Before, ghost i: nat)
    requires |was.h| == |es| && i < |es| && lf == es[i] && first == es[0]
    requires was.h == Views(es) && my.matched == was.mine && my.alertLastEvents == was.context
    requires was.context.Some? ==> Terminated(was.context.value)
    requires Saved(LastSids, rule, my, was.h, i) && rule.freqCount == rule.watch.frequency
    modifies rule`freqCount, rule`lastEventsCopied, rule.lastEvents, my`alertLastEvents, my`matched, es`matched
    ensures Done(LastSids, rule, my, es, was, lf)
  {
    hide SavedLogs, Found, Evidence, MarksSet, FinalCount, Lists, Terminated, Stops, Qualifies, Done;
    hide Views, Hits, Lines;
    FoundSaved(rule, my, was.h, i);
    rule.freqCount := rule.freqCount + 1;
    Fire(LastSids, rule, my, lf, first, es, was, i);
  }

  /** The event at position `i` of `es` is the one the other two searches return. */
  method FireWalked(ghost scan: Scan, rule: RuleInfo, my: Eventinfo, lf: Eventinfo, first: Eventinfo,
                    ghost es: seq<Eventinfo>, ghost was: Before, ghost i: nat)
    requires Walking(scan, rule, my, es, was, i) && i < |es| && lf == es[i] && first == es[0] && !scan.LastSids?
    requires !Stops(rule.watch, my.time, was.h[i]) && Qualifies(scan, rule.watch, my.attrs, was.h[i].attrs)
    requires rule.freqCount >= rule.watch.frequency
    modifies rule`lastEventsCopied, rule.lastEvents, my`alertLastEvents, my`matched, es`matched
    ensures Done(scan, rule, my, es, was, lf)
  {
    hide SavedLogs, Found, Evidence, MarksSet, FinalCount, Lists, Terminated, Stops, Qualifies, Done;
    FoundWalking(scan, rule, my, was.h, i);
    Fire(scan, rule, my, lf, first, es, was, i);
  }

  method Fire(ghost scan: Scan, rule: RuleInfo, my: Eventinfo, lf: Eventinfo, first: Eventinfo,
              ghost es: seq<Eventinfo>, ghost was: Before, ghost i: nat)
    requires |was.h| == |es| && i < |es| && lf == es[i] && first == es[0] && rule.BufferOk()
    requires was.h == Views(es) && my.matched == was.mine && my.alertLastEvents == was.context
    requires was.context.Some? ==> Terminated(was.context.value)
    requires Found(scan, rule.watch, my.attrs, my.time, was.h) == Some(i)
    requires rule.freqCount == FinalCount(scan, rule.watch, |Evidence(scan, rule.watch, my.attrs, my.time, was.h)|)
    requires rule.Holds(SavedLogs(scan, rule.watch, my.attrs, my.time, was.h))
    modifies rule`lastEventsCopied, rule.lastEvents, my`alertLastEvents, my`matched, es`matched
    ensures Done(scan, rule, my, es, was, lf)
  {
    hide Saved, SavedLogs, Found, Evidence, MarksSet, FinalCount, Lists, Terminated;
    Mark(rule, my, lf, first, es);
    Deliver(scan, rule, my, es, was.h, i);
  }

  /** What looking at one event leads to: the next event, the end of the search, or a match. */
  datatype Verdict = GoOn | GiveUp | Matched

  ghost predicate Judged(scan: Scan, rule: RuleInfo, my: Eventinfo, es: seq<Eventinfo>, was: Before, i: nat,
                         lf: Eventinfo, v: Verdict)
    reads rule, rule.lastEvents, my, es`matched
  {
    match v
    case GoOn => Walking(scan, rule, my, es, was, i + 1)
    case GiveUp => Done(scan, rule, my, es, was, null)
    case Matched => Done(scan, rule, my, es, was, lf)
  }

  lemma GiveUpHere(scan: Scan, rule: RuleInfo, my: Eventinfo, es: seq<Eventinfo>, was: Before, i: nat)
    requires Walking(scan, rule, my, es, was, i)
    requires i < |es| ==> Stops(rule.watch, my.time, was.h[i])
    ensures Done(scan, rule, my, es, was, null)
  {
    hide Outcome, Walked;
    WalkStops(scan, rule, my, es, was.h, i);
    NothingMarked(rule, my, es, was.h);
  }

  /** The loop body of Search_LastSids. */
  method ExamineSid(rule: RuleInfo, my: Eventinfo, lf: Eventinfo, first: Eventinfo, ghost es: seq<Eventinfo>,
                    ghost was: Before, ghost i: nat)
    returns (v: Verdict)
    requires Walking(LastSids, rule, my, es, was, i) && i < |es| && lf == es[i] && first == es[0]
    modifies rule`freqCount, rule`lastEventsCopied, rule.lastEvents, my`alertLastEvents, my`matched, es`matched
    ensures Judged(LastSids, rule, my, es, was, i, lf, v)
  {
    hide Saved, Done, Walked, Qualifies, Outcome, Found, SavedLogs, FinalCount;
    if my.time - lf.time > rule.watch.timeframe {
      GiveUpHere(LastSids, rule, my, es, was, i);
      return GiveUp;
    } else if lf.matched >= rule.watch.level {
      GiveUpHere(LastSids, rule, my, es, was, i);
      return GiveUp;
    }
    if !Qualifies(LastSids, rule.watch, my.attrs, lf.attrs) {
      WalkSkips(LastSids, rule, my, was.h, i);
      return GoOn;
    }
    SaveHit(LastSids, rule, my, was.h, i, lf.fullLog);
    if rule.freqCount < rule.watch.frequency {
      CountHit(LastSids, rule, my, was.h, i);
      return GoOn;
    }
    FireSaved(rule, my, lf, first, es, was, i);
    return Matched;
  }

  /** The loop body of Search_LastGroups and Search_LastEvents, which differ in the field tests alone. */
  method Examine(ghost scan: Scan, groups: bool, rule: RuleInfo, my: Eventinfo, lf: Eventinfo, first: Eventinfo,
                 ghost es: seq<Eventinfo>, ghost was: Before, ghost i: nat)
    returns (v: Verdict)
    requires scan == if groups then LastGroups else LastEvents
    requires Walking(scan, rule, my, es, was, i) && i < |es| && lf == es[i] && first == es[0]
    modifies rule`freqCount, rule`lastEventsCopied, rule.lastEvents, my`alertLastEvents, my`matched, es`matched
    ensures Judged(scan, rule, my, es, was, i, lf, v)
  {
    hide Saved, Done, Walked, Qualifies, Outcome, Found, SavedLogs, FinalCount;
    if my.time - lf.time > rule.watch.timeframe {
      GiveUpHere(scan, rule, my, es, was, i);
      return GiveUp;
    } else if lf.matched >= rule.watch.level {
      GiveUpHere(scan, rule, my, es, was, i);
      return GiveUp;
    }
    if !Qualifies(if groups then LastGroups else LastEvents, rule.watch, my.attrs, lf.attrs) {
      WalkSkips(scan, rule, my, was.h, i);
      return GoOn;
    }
    if rule.freqCount < rule.watch.frequency {
      SaveHit(scan, rule, my, was.h, i, lf.fullLog);
      CountHit(scan, rule, my, was.h, i);
      return GoOn;
    }
    FireWalked(scan, rule, my, lf, first, es, was, i);
    return Matched;
  }

  /** The events of a possibly missing list, newest first. */
  ghost function NewestOf(l: OSList?): seq<Eventinfo>
    reads l
  {
    if l == null then [] else l.NewestFirst()
  }

  /** The state before a search over `es`. */
  ghost function BeforeSearch(my: Eventinfo, es: seq<Eventinfo>): Before
    reads my, es`matched
  {
    Before(Views(es), my.matched, my.alertLastEvents)
  }

  /** Search_LastSids */
  method SearchLastSids(my: Eventinfo, rule: RuleInfo) returns (ret: Eventinfo?)
    requires rule.BufferOk() && (rule.sidSearch != null ==> rule.sidSearch.Valid())
    requires my.alertLastEvents.Some? ==> Terminated(my.alertLastEvents.value)
    modifies rule`freqCount, rule`lastEventsCopied, rule.lastEvents, my`alertLastEvents, my`matched,
      NewestOf(rule.sidSearch)`matched
    ensures Done(LastSids, rule, my, NewestOf(rule.sidSearch), old(BeforeSearch(my, NewestOf(rule.sidSearch))), ret)
  {
    hide Walking, Done, OSList.Linked, RuleInfo.BufferOk, Views, Terminated;
    ghost var es := NewestOf(rule.sidSearch);
    ghost var was := BeforeSearch(my, es);
    StartWalk(LastSids, rule, my, es, was);
    if rule.sidSearch == null {
      GiveUpHere(LastSids, rule, my, es, was, 0);
      return null;
    }
    ret := WalkList(LastSids, true, my, rule, rule.sidSearch, es, was);
  }

  /** Search_LastGroups */
  method SearchLastGroups(my: Eventinfo, rule: RuleInfo) returns (ret: Eventinfo?)
    requires rule.BufferOk() && (rule.groupSearch != null ==> rule.groupSearch.Valid())
    requires my.alertLastEvents.Some? ==> Terminated(my.alertLastEvents.value)
    modifies rule`freqCount, rule`lastEventsCopied, rule.lastEvents, my`alertLastEvents, my`matched,
      NewestOf(rule.groupSearch)`matched
    ensures Done(LastGroups, rule, my, NewestOf(rule.groupSearch), old(BeforeSearch(my, NewestOf(rule.groupSearch))),
      ret)
  {
    hide Walking, Done, OSList.Linked, RuleInfo.BufferOk, Views, Terminated;
    ghost var es := NewestOf(rule.groupSearch);
    ghost var was := BeforeSearch(my, es);
    StartWalk(LastGroups, rule, my, es, was);
    if rule.groupSearch == null {
      GiveUpHere(LastGroups, rule, my, es, was, 0);
      return null;
    }
    ret := WalkList(LastGroups, false, my, rule, rule.groupSearch, es, was);
  }

  /** The walk of the two searches over shared lists, from the newest node back. */
  method WalkList(ghost scan: Scan, sids: bool, my: Eventinfo, rule: RuleInfo, l: OSList, ghost es: seq<Eventinfo>,
                  ghost was: Before)
    returns (ret: Eventinfo?)
    requires scan == if sids then LastSids else LastGroups
    requires l.Valid() && es == l.NewestFirst() && Walking(scan, rule, my, es, was, 0)
    modifies rule`freqCount, rule`lastEventsCopied, rule.lastEvents, my`alertLastEvents, my`matched, es`matched
    ensures Done(scan, rule, my, es, was, ret)
  {
    hide Walking, Done, OSList.Linked, OSList.At;
    l.WalkFromLast();
    var node := l.last;
    ghost var i := 0;
    if node == null {
      l.WalkEnd(0);
      GiveUpHere(scan, rule, my, es, was, 0);
      return null;
    }
    l.WalkBack(0, node);
    var first := node.data;
    while node != null
      invariant l.Valid() && l.At(i, node)
      invariant Walking(scan, rule, my, es, was, i)
      decreases |es| - i
    {
      l.WalkBack(i, node);
      var v;
      if sids {
        v := ExamineSid(rule, my, node.data, first, es, was, i);
      } else {
        v := Examine(LastGroups, true, rule, my, node.data, first, es, was, i);
      }
      if v == GiveUp {
        return null;
      } else if v == Matched {
        return node.data;
      }
      node, i := node.prev, i + 1;
    }
    l.WalkEnd(i);
    GiveUpHere(scan, rule, my, es, was, i);
    return null;
  }

  /** Search_LastEvents, over the history of the searching shard. */
  method SearchLastEvents(my: Eventinfo, rule: RuleInfo, history: EventList) returns (ret: Eventinfo?)
    requires rule.BufferOk() && history.Valid()
    requires my.alertLastEvents.Some? ==> Terminated(my.alertLastEvents.value)
    modifies rule`freqCount, rule`lastEventsCopied, rule.lastEvents, my`alertLastEvents, my`matched,
      history.Newest()`matched
    ensures Done(LastEvents, rule, my, history.Newest(), old(BeforeSearch(my, history.Newest())), ret)
  {
    hide Walking, Done, Chain, RuleInfo.BufferOk, Views, Terminated;
    ghost var es := history.Newest();
    ghost var was := BeforeSearch(my, es);
    StartWalk(LastEvents, rule, my, es, was);
    ret := WalkHistory(my, rule, history, es, was);
  }

  /** The walk of the third search, from the first node on. */
  method WalkHistory(my: Eventinfo, rule: RuleInfo, history: EventList, ghost es: seq<Eventinfo>, ghost was: Before)
    returns (ret: Eventinfo?)
    requires history.Valid() && es == history.Newest() && Walking(LastEvents, rule, my, es, was, 0)
    modifies rule`freqCount, rule`lastEventsCopied, rule.lastEvents, my`alertLastEvents, my`matched, es`matched
    ensures Done(LastEvents, rule, my, es, was, ret)
  {
    hide Walking, Done, Chain, EventList.At, EventsOf;
    history.WalkFromFirst();
    var node := history.first;
    ghost var i := 0;
    if node == null {
      history.WalkEnd(0);
      GiveUpHere(LastEvents, rule, my, es, was, 0);
      return null;
    }
    history.WalkOn(0, node);
    var first := node.event;
    while node != null
      invariant history.Valid() && history.At(i, node)
      invariant Walking(LastEvents, rule, my, es, was, i)
      decreases |es| - i
    {
      history.WalkOn(i, node);
      var v := Examine(LastEvents, false, rule, my, node.event, first, es, was, i);
      if v == GiveUp {
        return null;
      } else if v == Matched {
        return node.event;
      }
      node, i := node.next, i + 1;
    }
    history.WalkEnd(i);
    GiveUpHere(LastEvents, rule, my, es, was, i);
    return null;
  }
}
