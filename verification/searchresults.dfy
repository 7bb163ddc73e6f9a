/**
 What a finished search leaves behind, told by the fields of the events and of the rule.
 */
module SearchResults {
  import opened Wrappers
  import opened History
  import opened Events
  import opened FieldTests
  import opened Searches
  import HistoryRuns

  /** The event returned is the one of the walk behind `frequency` others that meet every test of the rule; nothing is
      returned if there are not so many. The rule's counter says how many were counted. */
  lemma ReturnedEvent(scan: Scan, rule: RuleInfo, my: Eventinfo, es: seq<Eventinfo>, was: Before, ret: Eventinfo?)
    requires Done(scan, rule, my, es, was, ret)
    ensures var w := rule.watch;
      var good, n := Meeting(scan, w, my.attrs, was.h), WalkLength(w, my.time, was.h);
      var all := |set k | k in good && k < n|;
      && (ret != null <==> all > w.frequency)
      && (ret != null ==> exists i: nat :: i < |es| && NthCounted(good, n, w.frequency, i) && es[i] == ret)
      && rule.freqCount == if ret == null then all else if scan.LastSids? then w.frequency + 1 else w.frequency
  {
    SearchCounts(scan, rule.watch, my.attrs, my.time, was.h);
    EvidenceCounted(scan, rule.watch, my.attrs, my.time, was.h);
    FoundFits(scan, rule.watch, my.attrs, my.time, was.h);
    hide WalkLength, Found, Meeting, Evidence, NthCounted, RuleInfo.Holds, RuleInfo.BufferOk, MarksSet, SavedLogs;
  }

  lemma FoundFits(scan: Scan, w: Watch, my: Attrs, now: int, h: seq<Ev>)
    ensures Found(scan, w, my, now, h).Some? ==> Found(scan, w, my, now, h).value < |h|
  {
  }

  /** A search that returns an event marks it, the head and the searching event at the level of the rule; nothing else
      is marked, and nothing at all by one that returns none. */
  lemma MarksLeft(scan: Scan, rule: RuleInfo, my: Eventinfo, es: seq<Eventinfo>, was: Before, ret: Eventinfo?)
    requires Done(scan, rule, my, es, was, ret)
    ensures if ret == null then
        my.matched == was.mine && forall k | 0 <= k < |es| :: es[k].matched == was.h[k].matched
      else
        && ret in es && my.matched == ret.matched == es[0].matched == rule.watch.level
        && forall k | 0 <= k < |es| && es[k] != ret && es[k] != es[0] && es[k] != my ::
             es[k].matched == was.h[k].matched
  {
    FoundFits(scan, rule.watch, my.attrs, my.time, was.h);
    hide Found, Evidence, RuleInfo.Holds, RuleInfo.BufferOk, SavedLogs, FinalCount;
    if ret != null {
      var i :| 0 <= i < |es| && es[i] == ret;
      assert es[i].matched == rule.watch.level && es[0].matched == rule.watch.level;
    }
  }

  /** The alert context of an event that fires lists the logs of the newest events counted, eleven at most and as many
      as the rule's frequency, or one more for the sid search, and is NULL-terminated behind them. Without a line
      the event keeps the context it had; the rule keeps no line. */
  lemma ContextLeft(scan: Scan, rule: RuleInfo, my: Eventinfo, es: seq<Eventinfo>, was: Before, ret: Eventinfo?, t: nat)
    returns (k: nat)
    requires Done(scan, rule, my, es, was, ret) && ret != null && rule.lastEvents != null
    ensures var w := rule.watch;
      var good, n := Meeting(scan, w, my.attrs, was.h), WalkLength(w, my.time, was.h);
      var lines := if scan.LastSids? then w.frequency + 1 else w.frequency;
      && !rule.lastEventsCopied
      && (lines == 0 ==> my.alertLastEvents == was.context)
      && (lines > 0 ==>
            && my.alertLastEvents.Some? && |my.alertLastEvents.value| == 12
            && (t < lines && t < 11 ==>
                  NthCounted(good, n, t, k) && k < |es| && my.alertLastEvents.value[t] == Some(was.h[k].fullLog))
            && (t == (if lines < 11 then lines else 11) ==> my.alertLastEvents.value[t] == None))
  {
    ReturnedEvent(scan, rule, my, es, was, ret);
    k := SavedLines(scan, rule.watch, my.attrs, my.time, was.h, t);
    NumberOfLines(scan, rule.watch, my.attrs, my.time, was.h);
    hide WalkLength, Found, Meeting, Evidence, NthCounted, RuleInfo.BufferOk, MarksSet, SavedLogs, FinalCount, Lines;
  }

  /** A search that fires saves as many lines as it may. */
  lemma NumberOfLines(scan: Scan, w: Watch, my: Attrs, now: int, h: seq<Ev>)
    ensures Found(scan, w, my, now, h).Some? ==>
      var lines := if scan.LastSids? then w.frequency + 1 else w.frequency;
      |SavedLogs(scan, w, my, now, h)| == if lines < 11 then lines else 11
  {
    hide WalkLength, Hits;
  }

  /** The events that the run theorems say a firing search counts are the newest of those that meet every test of the
      rule, up to the one that is returned. */
  lemma CountedMeetTheTests(s: HistoryRuns.Past, op: HistoryRuns.Op, i: nat) returns (k: nat)
    requires HistoryRuns.Valid(s) && HistoryRuns.Fires(s, op) && i <= op.w.frequency
    ensures var good, n := Meeting(op.scan, op.w, op.my, s.evs), WalkLength(op.w, op.now, s.evs);
      NthCounted(good, n, i, k) && k < |s.ids| && HistoryRuns.Counted(s, op)[i] == s.ids[k]
    ensures i == op.w.frequency ==> Found(op.scan, op.w, op.my, op.now, s.evs) == Some(k)
  {
    k := NthEvidence(op.scan, op.w, op.my, op.now, s.evs, i);
    hide WalkLength, Meeting, NthCounted, HistoryRuns.Valid;
  }
}
