/**
 The frequency search of `ossec-analysisd` as mathematics: what a search over a newest-first
 history of events returns and what inserting an event evicts.
 */
module History {
  import opened Wrappers

  /** The decoded fields of an event that the three searches read. */
  datatype Attrs = Attrs(
    category: int,
    log: string,
    id: Option<string>,
    srcip: Option<string>,
    srcport: Option<string>,
    dstport: Option<string>,
    dstuser: Option<string>,
    location: Option<string>,
    url: Option<string>,
    srcCountry: Option<string>,
    srcGeoip: Option<string>)

  /** What a search sees of an event it walks over. */
  datatype Ev = Ev(time: int, matched: int, attrs: Attrs, fullLog: string)

  /** The part of a rule that a search reads; `regex` stands for the compiled if_matched_regex. */
  datatype Watch = Watch(
    level: int,
    frequency: nat,
    timeframe: int,
    sameUser: bool,
    sameId: bool,
    sameSrcip: bool,
    sameSrcport: bool,
    sameDstport: bool,
    sameLocation: bool,
    differentUrl: bool,
    differentSrcGeoip: bool,
    extraInfo: bool,
    regex: Option<string -> bool>)

  /** The three searches a rule can be bound to. */
  datatype Scan = LastEvents | LastSids | LastGroups

  const MAX_LAST_EVENTS := 11

  predicate Same(a: Option<string>, b: Option<string>) {
    a.Some? && b.Some? && a.value == b.value
  }

  predicate Different(a: Option<string>, b: Option<string>) {
    a.Some? && b.Some? && a.value != b.value
  }

  /** The country code when there is one, the display string otherwise. */
  function Country(a: Attrs): Option<string> {
    if a.srcCountry.Some? then a.srcCountry else a.srcGeoip
  }

  predicate Qualifies(scan: Scan, w: Watch, my: Attrs, past: Attrs) {
    && (w.sameId ==> Same(past.id, my.id))
    && (w.sameSrcip ==> Same(past.srcip, my.srcip))
    && match scan
       case LastEvents =>
         && past.category == my.category
         && (w.regex.Some? ==> w.regex.value(past.log))
         && (w.sameUser ==> Same(past.dstuser, my.dstuser))
         && (w.differentUrl ==> Different(past.url, my.url))
         && (w.differentSrcGeoip ==> Different(Country(past), Country(my)))
       case _ =>
         w.extraInfo ==>
           && (w.sameSrcport ==> Same(past.srcport, my.srcport))
           && (w.sameDstport ==> Same(past.dstport, my.dstport))
           && (w.sameUser ==> Same(past.dstuser, my.dstuser))
           && (w.sameLocation ==> Same(past.location, my.location))
           && (w.differentUrl ==> Different(past.url, my.url))
           && (w.differentSrcGeoip ==> Different(Country(past), Country(my)))
  }

  /** A walk stops here: the event is too old, or it already served a rule of this level or above. */
  predicate Stops(w: Watch, now: int, e: Ev) {
    now - e.time > w.timeframe || e.matched >= w.level
  }

  /** Length of the longest prefix a walk may use. */
  function WalkLength(w: Watch, now: int, h: seq<Ev>): (n: nat)
    ensures n <= |h|
    ensures forall k | 0 <= k < n :: !Stops(w, now, h[k])
    ensures n < |h| ==> Stops(w, now, h[n])
  {
    if h == [] || Stops(w, now, h[0]) then 0 else 1 + WalkLength(w, now, h[1..])
  }

  /** The positions below `n` of the events that qualify, newest first. */
  function Hits(scan: Scan, w: Watch, my: Attrs, h: seq<Ev>, n: nat): (q: seq<nat>)
    requires n <= |h|
    ensures |q| <= n && forall t | 0 <= t < |q| :: q[t] < n
  {
    if n == 0 then []
    else
      var q := Hits(scan, w, my, h, n - 1);
      if Qualifies(scan, w, my, h[n - 1].attrs) then q + [n - 1] else q
  }

  lemma InAppended<T>(q: seq<T>, x: T, y: T)
    ensures y in q + [x] <==> y in q || y == x
  {
    if y == x {
      assert (q + [x])[|q|] == x;
    } else if y in q {
      var i :| 0 <= i < |q| && q[i] == y;
      assert (q + [x])[i] == y;
    }
  }

  lemma {:induction false} HitsAreOrdered(scan: Scan, w: Watch, my: Attrs, h: seq<Ev>, n: nat, s: nat, t: nat)
    requires n <= |h| && s < t < |Hits(scan, w, my, h, n)|
    ensures Hits(scan, w, my, h, n)[s] < Hits(scan, w, my, h, n)[t]
  {
    hide Qualifies;
    if t < |Hits(scan, w, my, h, n - 1)| {
      HitsAreOrdered(scan, w, my, h, n - 1, s, t);
    }
  }

  lemma {:induction false} HitsQualify(scan: Scan, w: Watch, my: Attrs, h: seq<Ev>, n: nat, k: nat)
    requires k < n <= |h|
    ensures k in Hits(scan, w, my, h, n) <==> Qualifies(scan, w, my, h[k].attrs)
  {
    hide Qualifies;
    var q := Hits(scan, w, my, h, n - 1);
    InAppended(q, n - 1, k);
    if k < n - 1 {
      HitsQualify(scan, w, my, h, n - 1, k);
    }
  }

  /** They are exactly the qualifying positions, in walk order. */
  lemma HitsAreTheQualifying(scan: Scan, w: Watch, my: Attrs, h: seq<Ev>, n: nat)
    requires n <= |h|
    ensures var q := Hits(scan, w, my, h, n);
      && (forall k | 0 <= k < n :: k in q <==> Qualifies(scan, w, my, h[k].attrs))
      && (forall s, t | 0 <= s < t < |q| :: q[s] < q[t])
  {
    hide Qualifies, Hits;
    var q := Hits(scan, w, my, h, n);
    forall k | 0 <= k < n ensures k in q <==> Qualifies(scan, w, my, h[k].attrs) {
      HitsQualify(scan, w, my, h, n, k);
    }
    forall s, t | 0 <= s < t < |q| ensures q[s] < q[t] {
      HitsAreOrdered(scan, w, my, h, n, s, t);
    }
  }

  /** The evidence of one search: every qualifying event of the walk. */
  function Evidence(scan: Scan, w: Watch, my: Attrs, now: int, h: seq<Ev>): seq<nat> {
    Hits(scan, w, my, h, WalkLength(w, now, h))
  }

  /** The event a search returns: the one after `frequency` other hits. */
  function Found(scan: Scan, w: Watch, my: Attrs, now: int, h: seq<Ev>): Option<nat> {
    var q := Evidence(scan, w, my, now, h);
    if w.frequency < |q| then Some(q[w.frequency]) else None
  }

  /** How many log lines a search keeps as alert context. */
  function SavedCount(scan: Scan, w: Watch, hits: nat): (n: nat)
    ensures n <= MAX_LAST_EVENTS && n <= hits
  {
    var limit := if scan.LastSids? then w.frequency + 1 else w.frequency;
    var n := if hits < limit then hits else limit;
    if n < MAX_LAST_EVENTS then n else MAX_LAST_EVENTS
  }

  /** The lines of the first `n` hits. */
  function Lines(h: seq<Ev>, q: seq<nat>, n: nat): (logs: seq<string>)
    requires n <= |q| && forall t | 0 <= t < |q| :: q[t] < |h|
    ensures |logs| == n
  {
    seq(n, t requires 0 <= t < n => h[q[t]].fullLog)
  }

  /** The alert context a search keeps. */
  function SavedLogs(scan: Scan, w: Watch, my: Attrs, now: int, h: seq<Ev>): (logs: seq<string>)
    ensures |logs| <= MAX_LAST_EVENTS
  {
    var q := Evidence(scan, w, my, now, h);
    Lines(h, q, SavedCount(scan, w, |q|))
  }

  /** What a search leaves in the frequency counter of its rule. */
  function FinalCount(scan: Scan, w: Watch, hits: nat): nat {
    if hits <= w.frequency then hits else if scan.LastSids? then w.frequency + 1 else w.frequency
  }

  /** Hits of a longer walk extend the hits of a shorter one. */
  lemma {:induction false} HitsExtend(scan: Scan, w: Watch, my: Attrs, h: seq<Ev>, m: nat, n: nat)
    requires m <= n <= |h|
    ensures Hits(scan, w, my, h, m) <= Hits(scan, w, my, h, n)
    decreases n
  {
    if m < n {
      HitsExtend(scan, w, my, h, m, n - 1);
    }
  }

  /** Two searches that judge every event of a history alike find the same event, count the same evidence. */
  lemma {:induction false} HitsAgree(a: Scan, b: Scan, w: Watch, my: Attrs, h: seq<Ev>, n: nat)
    requires n <= |h|
    requires forall k | 0 <= k < n :: Qualifies(a, w, my, h[k].attrs) <==> Qualifies(b, w, my, h[k].attrs)
    ensures Hits(a, w, my, h, n) == Hits(b, w, my, h, n)
  {
    if n > 0 {
      HitsAgree(a, b, w, my, h, n - 1);
    }
  }

  lemma SidsAndGroupsAgree(w: Watch, my: Attrs, now: int, h: seq<Ev>)
    ensures Evidence(LastSids, w, my, now, h) == Evidence(LastGroups, w, my, now, h)
    ensures Found(LastSids, w, my, now, h) == Found(LastGroups, w, my, now, h)
  {
    HitsAgree(LastSids, LastGroups, w, my, h, WalkLength(w, now, h));
  }

  /** The history search and the other two test different fields: ports and location only on a shared list, user, URL
      and country there only if the rule asks for extra information, the regex only in the history. These are the
      rules for which that makes no difference. */
  ghost predicate TestsAlike(w: Watch) {
    && (w.regex.Some? ==> forall log :: w.regex.value(log))
    && if w.extraInfo then !w.sameSrcport && !w.sameDstport && !w.sameLocation
       else !w.sameUser && !w.differentUrl && !w.differentSrcGeoip
  }

  /** Over events of one category all three searches find the same event and count the same evidence. */
  ghost predicate Agree(w: Watch, my: Attrs, now: int, h: seq<Ev>) {
    && Evidence(LastEvents, w, my, now, h) == Evidence(LastSids, w, my, now, h) == Evidence(LastGroups, w, my, now, h)
    && Found(LastEvents, w, my, now, h) == Found(LastSids, w, my, now, h) == Found(LastGroups, w, my, now, h)
  }

  predicate OneCategory(my: Attrs, h: seq<Ev>) {
    forall k | 0 <= k < |h| :: h[k].attrs.category == my.category
  }

  lemma AlikeAgree(w: Watch, my: Attrs, now: int, h: seq<Ev>)
    requires TestsAlike(w) && OneCategory(my, h)
    ensures Agree(w, my, now, h)
  {
    forall k | 0 <= k < |h|
      ensures Qualifies(LastEvents, w, my, h[k].attrs) <==> Qualifies(LastSids, w, my, h[k].attrs)
    {
    }
    HitsAgree(LastEvents, LastSids, w, my, h, WalkLength(w, now, h));
    SidsAndGroupsAgree(w, my, now, h);
  }

  /** An event and a later one that pass every test there is. */
  const MINE := Attrs(0, "", Some(""), Some(""), Some(""), Some(""), Some(""), Some(""), Some("b"), Some("b"), None)
  const PAST := MINE.(url := Some("a"), srcCountry := Some("a"))

  /** For any other rule there is an event that one kind of search accepts and the other does not. */
  lemma Disagreeing(w: Watch) returns (past: Attrs)
    requires !TestsAlike(w)
    ensures past.category == MINE.category
    ensures Qualifies(LastEvents, w, MINE, past) <==> !Qualifies(LastSids, w, MINE, past)
  {
    past := PAST;
    if w.regex.Some? && !forall log :: w.regex.value(log) {
      var log: string :| !w.regex.value(log);
      past := PAST.(log := log);
    } else if w.extraInfo {
      past := PAST.(srcport := if w.sameSrcport then None else Some(""),
                    dstport := if w.sameDstport then None else Some(""),
                    location := if w.sameLocation then None else Some(""));
    } else {
      past := PAST.(dstuser := if w.sameUser then None else Some(""),
                    url := if w.differentUrl then None else Some("a"),
                    srcCountry := if w.differentSrcGeoip then None else Some("a"));
    }
  }

  lemma {:induction false} AllOrNone(scan: Scan, w: Watch, my: Attrs, h: seq<Ev>, n: nat)
    requires n <= |h| && forall j, k | 0 <= j < |h| && 0 <= k < |h| :: h[j] == h[k]
    ensures |Hits(scan, w, my, h, n)| == if n > 0 && Qualifies(scan, w, my, h[0].attrs) then n else 0
  {
    if n > 0 {
      AllOrNone(scan, w, my, h, n - 1);
      assert h[n - 1] == h[0];
    }
  }

  /** On a history of `frequency` + 1 such events one of them fires and the other does not. */
  lemma OtherRulesDisagree(w: Watch) returns (h: seq<Ev>)
    requires !TestsAlike(w)
    ensures OneCategory(MINE, h) && |h| == w.frequency + 1
    ensures Found(LastEvents, w, MINE, 0, h).Some? <==> Found(LastSids, w, MINE, 0, h).None?
    ensures !Agree(w, MINE, 0, h)
  {
    var past := Disagreeing(w);
    var e := Ev(0 - w.timeframe, w.level - 1, past, "");
    h := seq(w.frequency + 1, _ => e);
    hide Qualifies;
    WalkAtLeast(w, 0, h, |h|);
    AllOrNone(LastEvents, w, MINE, h, |h|);
    AllOrNone(LastSids, w, MINE, h, |h|);
  }

  /** A rule gets the same answer from all three searches, whatever the event, the time and the history of one
      category, exactly when its tests are alike. */
  lemma AllThreeAgree(w: Watch)
    ensures (forall my, now, h | OneCategory(my, h) :: Agree(w, my, now, h)) <==> TestsAlike(w)
  {
    if TestsAlike(w) {
      forall my, now, h | OneCategory(my, h) ensures Agree(w, my, now, h) {
        AlikeAgree(w, my, now, h);
      }
    } else {
      var h := OtherRulesDisagree(w);
    }
  }

  /** When the walk stands at a qualifying event after exactly `frequency` hits, that event is the result. */
  lemma FoundHere(scan: Scan, w: Watch, my: Attrs, now: int, h: seq<Ev>, i: nat)
    requires i < WalkLength(w, now, h)
    requires Qualifies(scan, w, my, h[i].attrs)
    requires |Hits(scan, w, my, h, i)| == w.frequency
    ensures Found(scan, w, my, now, h) == Some(i)
    ensures Hits(scan, w, my, h, i) + [i] <= Evidence(scan, w, my, now, h)
  {
    HitsExtend(scan, w, my, h, i + 1, WalkLength(w, now, h));
  }

  lemma WalkAtLeast(w: Watch, now: int, h: seq<Ev>, i: nat)
    requires i <= |h|
    requires forall k | 0 <= k < i :: !Stops(w, now, h[k])
    ensures i <= WalkLength(w, now, h)
  {
  }

  /** A rule that tests no field. */
  function PlainWatch(level: int, frequency: nat, timeframe: int): Watch {
    Watch(level, frequency, timeframe, false, false, false, false, false, false, false, false, false, None)
  }

  /** A timeframe that spans a whole history. */
  function Oldest(h: seq<Ev>): (t: int)
    ensures forall k | 0 <= k < |h| :: 0 - h[k].time <= t
  {
    if h == [] then 0
    else
      var t := Oldest(h[1..]);
      assert forall k | 1 <= k < |h| :: h[k] == h[1..][k - 1];
      if 0 - h[0].time > t then 0 - h[0].time else t
  }

  lemma {:induction false} AllHit(w: Watch, my: Attrs, h: seq<Ev>, n: nat)
    requires n <= |h| && w == PlainWatch(w.level, w.frequency, w.timeframe)
    ensures |Hits(LastSids, w, my, h, n)| == n
  {
    if n > 0 {
      AllHit(w, my, h, n - 1);
    }
  }

  /** A rule without field tests finds what it has not stopped before. */
  lemma PlainFinds(w: Watch, my: Attrs, h: seq<Ev>)
    requires w == PlainWatch(w.level, w.frequency, w.timeframe) && w.frequency < |h|
    requires forall k | 0 <= k <= w.frequency :: !Stops(w, 0, h[k])
    ensures Found(LastSids, w, my, 0, h) == Some(w.frequency)
    ensures forall k | 0 <= k <= w.frequency ::
      k < |Evidence(LastSids, w, my, 0, h)| && Evidence(LastSids, w, my, 0, h)[k] == k
  {
    var i := w.frequency;
    WalkAtLeast(w, 0, h, i + 1);
    AllHit(w, my, h, i);
    FoundHere(LastSids, w, my, 0, h, i);
    HitsExtend(LastSids, w, my, h, i + 1, WalkLength(w, 0, h));
    forall k | 0 <= k <= i ensures k < |Evidence(LastSids, w, my, 0, h)| && Evidence(LastSids, w, my, 0, h)[k] == k {
      AllHit(w, my, h, i + 1);
      HitsInPlace(w, my, h, i + 1, k);
    }
  }

  lemma {:induction false} HitsInPlace(w: Watch, my: Attrs, h: seq<Ev>, n: nat, k: nat)
    requires k < n <= |h| && w == PlainWatch(w.level, w.frequency, w.timeframe)
    ensures k < |Hits(LastSids, w, my, h, n)| && Hits(LastSids, w, my, h, n)[k] == k
  {
    AllHit(w, my, h, n - 1);
    if k < n - 1 {
      HitsInPlace(w, my, h, n - 1, k);
    }
  }

  // ---------------------------------------------------------------------------------------------
  // Insertion with eviction from the old end

  const EVICT_BATCH := 10

  /** How many of the events survive, when `i` have been evicted from the old end already. */
  function Survivors(all: seq<Ev>, now: int, maxFreq: int, i: nat): (n: nat)
    ensures n <= |all|
    ensures |all| > 0 && i < EVICT_BATCH ==> n < |all|
    ensures |all| - n >= EVICT_BATCH - i || n == 0
    ensures forall k | n <= k < |all| && |all| - k + i > EVICT_BATCH :: now - all[k].time > maxFreq
    ensures n > 0 ==> now - all[n - 1].time <= maxFreq
  {
    if |all| == 0 then 0
    else if i < EVICT_BATCH || now - all[|all| - 1].time > maxFreq then
      Survivors(all[..|all| - 1], now, maxFreq, i + 1)
    else |all|
  }

  /** The history after inserting `e` into a list that holds at most `max` events. */
  function Inserted(h: seq<Ev>, e: Ev, max: int, maxFreq: int): (r: seq<Ev>)
    ensures r <= [e] + h
  {
    var all := [e] + h;
    if h != [] && |all| > max then all[..Survivors(all, e.time, maxFreq, 0)] else all
  }

  /** The event just inserted survives its own insertion exactly when the list is empty, not full,
      or holds at least ten events at capacity. */
  lemma InsertedSurvives(h: seq<Ev>, e: Ev, max: int, maxFreq: int)
    requires 0 <= maxFreq
    ensures Inserted(h, e, max, maxFreq) != [] <==> h == [] || |h| < max || |h| >= EVICT_BATCH
  {
    var all := [e] + h;
    assert all[0] == e;
  }

  /** With a capacity of at least ten the event just inserted is always the head, and a list that
      was within its capacity stays within it. */
  lemma InsertedIsHead(h: seq<Ev>, e: Ev, max: int, maxFreq: int)
    requires 0 <= maxFreq && EVICT_BATCH <= max
    requires |h| <= max
    ensures var r := Inserted(h, e, max, maxFreq); r != [] && r[0] == e && |r| <= max
  {
    InsertedSurvives(h, e, max, maxFreq);
  }

  /** Nothing is evicted exactly while the list was empty or has room for one more; otherwise ten events go or all, and
      beyond ten only those that are older than the largest frequency, from the old end on. */
  lemma InsertedKeeps(h: seq<Ev>, e: Ev, max: int, maxFreq: int)
    ensures var r := Inserted(h, e, max, maxFreq);
      if h == [] || |h| < max then r == [e] + h
      else
        && r == ([e] + h)[..|r|] && |r| <= |h| + 1
        && (r != [] ==> |r| + 10 <= |h| + 1 && e.time - r[|r| - 1].time <= maxFreq)
        && forall k | |r| <= k && k + 10 < |h| + 1 :: e.time - ([e] + h)[k].time > maxFreq
  {
    hide Survivors;
  }
}
