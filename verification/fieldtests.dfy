/**
 Which events a search counts, field by field: what the options of a rule mean for the events of a walk.
 */
module FieldTests {
  import opened Wrappers
  import opened History

  /** The walk is the longest newest-first run of events that are young enough and not marked at the level. */
  lemma WalkEnds(w: Watch, now: int, h: seq<Ev>, n: nat)
    ensures n == WalkLength(w, now, h) <==>
      && n <= |h|
      && (forall k | 0 <= k < n :: h[k].time + w.timeframe >= now && h[k].matched < w.level)
      && (n < |h| ==> h[n].time + w.timeframe < now || h[n].matched >= w.level)
  {
    var m := WalkLength(w, now, h);
    assert m < |h| ==> Stops(w, now, h[m]);
  }

  lemma {:induction false} HitsCounted(scan: Scan, w: Watch, my: Attrs, h: seq<Ev>, n: nat, good: set<nat>)
    requires n <= |h| && forall k | 0 <= k < n :: k in good <==> Qualifies(scan, w, my, h[k].attrs)
    ensures |Hits(scan, w, my, h, n)| == |set k | k in good && k < n|
  {
    hide Qualifies;
    if n == 0 {
      assert (set k | k in good && k < n) == {};
    } else {
      HitsCounted(scan, w, my, h, n - 1, good);
      var before := set k | k in good && k < n - 1;
      assert (set k | k in good && k < n) == if n - 1 in good then before + {n - 1} else before;
    }
  }

  /** The event found is the one of the walk behind `frequency` others that qualify. */
  lemma FoundCounted(scan: Scan, w: Watch, my: Attrs, now: int, h: seq<Ev>, good: set<nat>)
    requires forall k: nat :: k in good <==> k < |h| && Qualifies(scan, w, my, h[k].attrs)
    ensures var n, found := WalkLength(w, now, h), Found(scan, w, my, now, h);
      && (found.Some? <==> |set k | k in good && k < n| > w.frequency)
      && (found.Some? ==>
            found.value in good && found.value < n && |set k | k in good && k < found.value| == w.frequency)
  {
    var n := WalkLength(w, now, h);
    HitsCounted(scan, w, my, h, n, good);
    HitsAreTheQualifying(scan, w, my, h, n);
    hide Qualifies, WalkLength;
    if Found(scan, w, my, now, h).Some? {
      var i := Found(scan, w, my, now, h).value;
      HitsCounted(scan, w, my, h, i, good);
      HitsAreTheQualifying(scan, w, my, h, i);
      BelowFound(scan, w, my, h, n, w.frequency);
    }
  }

  lemma {:induction false} BelowFound(scan: Scan, w: Watch, my: Attrs, h: seq<Ev>, n: nat, f: nat)
    requires n <= |h| && f < |Hits(scan, w, my, h, n)|
    ensures var i := Hits(scan, w, my, h, n)[f]; i < n && |Hits(scan, w, my, h, i)| == f
    ensures Qualifies(scan, w, my, h[Hits(scan, w, my, h, n)[f]].attrs)
    decreases n
  {
    hide Qualifies;
    if f < |Hits(scan, w, my, h, n - 1)| {
      BelowFound(scan, w, my, h, n - 1, f);
    }
  }

  // -------------------------------------------------------------------------------------------
  // The tests of a rule, one by one

  datatype Test = User | Id | Srcip | Srcport | Dstport | Location | Url | Country

  /** Whether a search makes a test: ports and location on a shared list and with extra information only, user, URL
      and country in the history, or on a shared list with extra information. */
  predicate Asked(scan: Scan, w: Watch, t: Test) {
    match t
    case Id => w.sameId
    case Srcip => w.sameSrcip
    case Srcport => w.sameSrcport && w.extraInfo && !scan.LastEvents?
    case Dstport => w.sameDstport && w.extraInfo && !scan.LastEvents?
    case Location => w.sameLocation && w.extraInfo && !scan.LastEvents?
    case User => w.sameUser && (w.extraInfo || scan.LastEvents?)
    case Url => w.differentUrl && (w.extraInfo || scan.LastEvents?)
    case Country => w.differentSrcGeoip && (w.extraInfo || scan.LastEvents?)
  }

  /** The field a test looks at. */
  function Value(t: Test, a: Attrs): Option<string> {
    match t
    case Id => a.id
    case Srcip => a.srcip
    case Srcport => a.srcport
    case Dstport => a.dstport
    case Location => a.location
    case User => a.dstuser
    case Url => a.url
    case Country => if a.srcCountry.Some? then a.srcCountry else a.srcGeoip
  }

  /** Both events have the field; the last two tests want different values, the others equal ones. */
  predicate Passes(t: Test, my: Attrs, past: Attrs) {
    && Value(t, my).Some? && Value(t, past).Some?
    && (Value(t, my).value == Value(t, past).value <==> !t.Url? && !t.Country?)
  }

  /** The history search also wants the category of the event and, if the rule has one, a match of the regex. */
  predicate Eligible(scan: Scan, w: Watch, my: Attrs, past: Attrs) {
    scan.LastEvents? ==> past.category == my.category && (w.regex.Some? ==> w.regex.value(past.log))
  }

  lemma QualifyingPasses(scan: Scan, w: Watch, my: Attrs, past: Attrs)
    ensures Qualifies(scan, w, my, past)
      <==> Eligible(scan, w, my, past) && forall t :: Asked(scan, w, t) ==> Passes(t, my, past)
  {
    if Qualifies(scan, w, my, past) {
      forall t | Asked(scan, w, t) ensures Passes(t, my, past) {
        match t { case Id => case Srcip => case Srcport => case Dstport => case Location => case User => case Url =>
                  case Country => }
      }
    } else if Eligible(scan, w, my, past) {
      var t := FailedTest(scan, w, my, past);
    }
  }

  lemma FailedTest(scan: Scan, w: Watch, my: Attrs, past: Attrs) returns (t: Test)
    requires Eligible(scan, w, my, past) && !Qualifies(scan, w, my, past)
    ensures Asked(scan, w, t) && !Passes(t, my, past)
  {
    if w.sameId && !Passes(Id, my, past) { return Id; }
    if w.sameSrcip && !Passes(Srcip, my, past) { return Srcip; }
    if Asked(scan, w, User) && !Passes(User, my, past) { return User; }
    if Asked(scan, w, Url) && !Passes(Url, my, past) { return Url; }
    if Asked(scan, w, Country) && !Passes(Country, my, past) { return Country; }
    if Asked(scan, w, Srcport) && !Passes(Srcport, my, past) { return Srcport; }
    if Asked(scan, w, Dstport) && !Passes(Dstport, my, past) { return Dstport; }
    return Location;
  }

  /** The events of a history that meet every test the rule asks for. */
  ghost function Meeting(scan: Scan, w: Watch, my: Attrs, h: seq<Ev>): (good: set<nat>)
    ensures forall k | 0 <= k < |h| :: k in good <==>
      Eligible(scan, w, my, h[k].attrs) && forall t :: Asked(scan, w, t) ==> Passes(t, my, h[k].attrs)
    ensures forall k | k in good :: k < |h|
  {
    set k: nat | k < |h| && Eligible(scan, w, my, h[k].attrs)
              && forall t :: Asked(scan, w, t) ==> Passes(t, my, h[k].attrs)
  }

  /** The position with `t` counted events before it. */
  ghost predicate NthCounted(good: set<nat>, n: nat, t: nat, k: nat) {
    k in good && k < n && |set j | j in good && j < k| == t
  }

  /** A search finds the event of the walk behind `frequency` others that meet every test the rule asks for, and
      nothing if there are not so many. */
  lemma SearchCounts(scan: Scan, w: Watch, my: Attrs, now: int, h: seq<Ev>)
    ensures var good, n, found := Meeting(scan, w, my, h), WalkLength(w, now, h), Found(scan, w, my, now, h);
      && (found.Some? <==> |set k | k in good && k < n| > w.frequency)
      && (found.Some? ==> NthCounted(good, n, w.frequency, found.value))
  {
    hide Found, WalkLength, Qualifies, Eligible, Asked, Passes;
    var good := Meeting(scan, w, my, h);
    forall k: nat ensures k in good <==> k < |h| && Qualifies(scan, w, my, h[k].attrs) {
      if k < |h| { QualifyingPasses(scan, w, my, h[k].attrs); }
    }
    FoundCounted(scan, w, my, now, h, good);
  }

  lemma EvidenceCounted(scan: Scan, w: Watch, my: Attrs, now: int, h: seq<Ev>)
    ensures |Evidence(scan, w, my, now, h)| == |set k | k in Meeting(scan, w, my, h) && k < WalkLength(w, now, h)|
  {
    hide WalkLength, Qualifies, Eligible, Asked, Passes;
    var good := Meeting(scan, w, my, h);
    forall k: nat ensures k in good <==> k < |h| && Qualifies(scan, w, my, h[k].attrs) {
      if k < |h| { QualifyingPasses(scan, w, my, h[k].attrs); }
    }
    HitsCounted(scan, w, my, h, WalkLength(w, now, h), good);
  }

  /** The evidence of a search, one by one. */
  lemma NthEvidence(scan: Scan, w: Watch, my: Attrs, now: int, h: seq<Ev>, t: nat) returns (k: nat)
    requires t < |Evidence(scan, w, my, now, h)|
    ensures k == Evidence(scan, w, my, now, h)[t] < |h|
    ensures NthCounted(Meeting(scan, w, my, h), WalkLength(w, now, h), t, k)
  {
    hide WalkLength, Qualifies, Eligible, Asked, Passes;
    var good, n := Meeting(scan, w, my, h), WalkLength(w, now, h);
    forall j: nat ensures j in good <==> j < |h| && Qualifies(scan, w, my, h[j].attrs) {
      if j < |h| { QualifyingPasses(scan, w, my, h[j].attrs); }
    }
    k := Evidence(scan, w, my, now, h)[t];
    BelowFound(scan, w, my, h, n, t);
    HitsCounted(scan, w, my, h, k, good);
  }

  /** The lines a search saves are those of the newest counted events, in that order: eleven at most, and as many
      as the rule's frequency, or one more in the sid search. */
  lemma SavedLines(scan: Scan, w: Watch, my: Attrs, now: int, h: seq<Ev>, t: nat) returns (k: nat)
    ensures var good, n, logs := Meeting(scan, w, my, h), WalkLength(w, now, h), SavedLogs(scan, w, my, now, h);
      && (t < |logs| <==>
            t < 11 && t < |set j | j in good && j < n| && (t < w.frequency || (t == w.frequency && scan.LastSids?)))
      && (t < |logs| ==> NthCounted(good, n, t, k) && k < |h| && logs[t] == h[k].fullLog)
  {
    EvidenceCounted(scan, w, my, now, h);
    k := 0;
    if t < |SavedLogs(scan, w, my, now, h)| {
      k := NthEvidence(scan, w, my, now, h, t);
    }
    hide WalkLength, Meeting, NthCounted, Hits;
  }

  // -------------------------------------------------------------------------------------------
  // Rules with one test

  lemma OneTest(scan: Scan, w: Watch, my: Attrs, now: int, h: seq<Ev>, only: Test, good: set<nat>)
    requires w.regex.None? && forall t :: Asked(scan, w, t) ==> t == only
    requires forall k: nat :: k in good <==>
      k < WalkLength(w, now, h) && (scan.LastEvents? ==> h[k].attrs.category == my.category)
      && (Asked(scan, w, only) ==> Passes(only, my, h[k].attrs))
    ensures Found(scan, w, my, now, h).Some? <==> |good| > w.frequency
  {
    SearchCounts(scan, w, my, now, h);
    hide Found, WalkLength, Asked, Passes;
    assert good == set k | k in Meeting(scan, w, my, h) && k < WalkLength(w, now, h);
  }

  /** A rule without tests counts every event of the walk, in the history every one of its category. */
  lemma NoTestCounts(scan: Scan, w: Watch, my: Attrs, now: int, h: seq<Ev>)
    requires w == PlainWatch(w.level, w.frequency, w.timeframe).(extraInfo := w.extraInfo)
    ensures Found(scan, w, my, now, h).Some? <==>
      |set k: nat | k < WalkLength(w, now, h) && (scan.LastEvents? ==> h[k].attrs.category == my.category)|
        > w.frequency
  {
    OneTest(scan, w, my, now, h, Id,
            set k: nat | k < WalkLength(w, now, h) && (scan.LastEvents? ==> h[k].attrs.category == my.category));
  }

  /** A rule with nothing but a regex. */
  lemma RegexCounts(scan: Scan, w: Watch, my: Attrs, now: int, h: seq<Ev>)
    requires w == PlainWatch(w.level, w.frequency, w.timeframe).(regex := w.regex) && w.regex.Some?
    ensures Found(scan, w, my, now, h).Some? <==>
      |set k: nat | k < WalkLength(w, now, h)
         && (scan.LastEvents? ==> h[k].attrs.category == my.category && w.regex.value(h[k].attrs.log))| > w.frequency
  {
    SearchCounts(scan, w, my, now, h);
    hide Found, WalkLength;
    assert (set k: nat | k < WalkLength(w, now, h)
              && (scan.LastEvents? ==> h[k].attrs.category == my.category && w.regex.value(h[k].attrs.log)))
      == set k | k in Meeting(scan, w, my, h) && k < WalkLength(w, now, h);
  }

  /** Events with the id of the searching one. */
  lemma SameIdCounts(scan: Scan, w: Watch, my: Attrs, now: int, h: seq<Ev>)
    requires w == PlainWatch(w.level, w.frequency, w.timeframe).(sameId := true, extraInfo := w.extraInfo)
    ensures Found(scan, w, my, now, h).Some? <==>
      |set k: nat | k < WalkLength(w, now, h) && (scan.LastEvents? ==> h[k].attrs.category == my.category)
         && my.id.Some? && h[k].attrs.id == my.id| > w.frequency
  {
    OneTest(scan, w, my, now, h, Id,
      set k: nat | k < WalkLength(w, now, h) && (scan.LastEvents? ==> h[k].attrs.category == my.category)
         && my.id.Some? && h[k].attrs.id == my.id);
  }

  /** Events with its source address. */
  lemma SameSrcipCounts(scan: Scan, w: Watch, my: Attrs, now: int, h: seq<Ev>)
    requires w == PlainWatch(w.level, w.frequency, w.timeframe).(sameSrcip := true, extraInfo := w.extraInfo)
    ensures Found(scan, w, my, now, h).Some? <==>
      |set k: nat | k < WalkLength(w, now, h) && (scan.LastEvents? ==> h[k].attrs.category == my.category)
         && my.srcip.Some? && h[k].attrs.srcip == my.srcip| > w.frequency
  {
    OneTest(scan, w, my, now, h, Srcip,
      set k: nat | k < WalkLength(w, now, h) && (scan.LastEvents? ==> h[k].attrs.category == my.category)
         && my.srcip.Some? && h[k].attrs.srcip == my.srcip);
  }

  /** Events with its user; on a shared list only if the rule asks for extra information. */
  lemma SameUserCounts(scan: Scan, w: Watch, my: Attrs, now: int, h: seq<Ev>)
    requires w == PlainWatch(w.level, w.frequency, w.timeframe).(sameUser := true, extraInfo := w.extraInfo)
    ensures Found(scan, w, my, now, h).Some? <==>
      |set k: nat | k < WalkLength(w, now, h) && (scan.LastEvents? ==> h[k].attrs.category == my.category)
         && (scan.LastEvents? || w.extraInfo ==>
             my.dstuser.Some? && h[k].attrs.dstuser == my.dstuser)| > w.frequency
  {
    OneTest(scan, w, my, now, h, User,
      set k: nat | k < WalkLength(w, now, h) && (scan.LastEvents? ==> h[k].attrs.category == my.category)
         && (scan.LastEvents? || w.extraInfo ==>
             my.dstuser.Some? && h[k].attrs.dstuser == my.dstuser));
  }

  /** Events with its source port, which only a search of a shared list with extra information tests. */
  lemma SameSrcportCounts(scan: Scan, w: Watch, my: Attrs, now: int, h: seq<Ev>)
    requires w == PlainWatch(w.level, w.frequency, w.timeframe).(sameSrcport := true, extraInfo := w.extraInfo)
    ensures Found(scan, w, my, now, h).Some? <==>
      |set k: nat | k < WalkLength(w, now, h) && (scan.LastEvents? ==> h[k].attrs.category == my.category)
         && (!scan.LastEvents? && w.extraInfo ==>
             my.srcport.Some? && h[k].attrs.srcport == my.srcport)| > w.frequency
  {
    OneTest(scan, w, my, now, h, Srcport,
      set k: nat | k < WalkLength(w, now, h) && (scan.LastEvents? ==> h[k].attrs.category == my.category)
         && (!scan.LastEvents? && w.extraInfo ==>
             my.srcport.Some? && h[k].attrs.srcport == my.srcport));
  }

  /** The same of the destination port. */
  lemma SameDstportCounts(scan: Scan, w: Watch, my: Attrs, now: int, h: seq<Ev>)
    requires w == PlainWatch(w.level, w.frequency, w.timeframe).(sameDstport := true, extraInfo := w.extraInfo)
    ensures Found(scan, w, my, now, h).Some? <==>
      |set k: nat | k < WalkLength(w, now, h) && (scan.LastEvents? ==> h[k].attrs.category == my.category)
         && (!scan.LastEvents? && w.extraInfo ==>
             my.dstport.Some? && h[k].attrs.dstport == my.dstport)| > w.frequency
  {
    OneTest(scan, w, my, now, h, Dstport,
      set k: nat | k < WalkLength(w, now, h) && (scan.LastEvents? ==> h[k].attrs.category == my.category)
         && (!scan.LastEvents? && w.extraInfo ==>
             my.dstport.Some? && h[k].attrs.dstport == my.dstport));
  }

  /** The same of the location. */
  lemma SameLocationCounts(scan: Scan, w: Watch, my: Attrs, now: int, h: seq<Ev>)
    requires w == PlainWatch(w.level, w.frequency, w.timeframe).(sameLocation := true, extraInfo := w.extraInfo)
    ensures Found(scan, w, my, now, h).Some? <==>
      |set k: nat | k < WalkLength(w, now, h) && (scan.LastEvents? ==> h[k].attrs.category == my.category)
         && (!scan.LastEvents? && w.extraInfo ==>
             my.location.Some? && h[k].attrs.location == my.location)| > w.frequency
  {
    OneTest(scan, w, my, now, h, Location,
      set k: nat | k < WalkLength(w, now, h) && (scan.LastEvents? ==> h[k].attrs.category == my.category)
         && (!scan.LastEvents? && w.extraInfo ==>
             my.location.Some? && h[k].attrs.location == my.location));
  }

  /** Events with another URL. */
  lemma DifferentUrlCounts(scan: Scan, w: Watch, my: Attrs, now: int, h: seq<Ev>)
    requires w == PlainWatch(w.level, w.frequency, w.timeframe).(differentUrl := true, extraInfo := w.extraInfo)
    ensures Found(scan, w, my, now, h).Some? <==>
      |set k: nat | k < WalkLength(w, now, h) && (scan.LastEvents? ==> h[k].attrs.category == my.category)
         && (scan.LastEvents? || w.extraInfo ==>
             my.url.Some? && h[k].attrs.url.Some? && h[k].attrs.url != my.url)| > w.frequency
  {
    OneTest(scan, w, my, now, h, Url,
      set k: nat | k < WalkLength(w, now, h) && (scan.LastEvents? ==> h[k].attrs.category == my.category)
         && (scan.LastEvents? || w.extraInfo ==>
             my.url.Some? && h[k].attrs.url.Some? && h[k].attrs.url != my.url));
  }

  /** Events from another country: the country code where there is one, the display string otherwise. */
  lemma DifferentCountryCounts(scan: Scan, w: Watch, my: Attrs, now: int, h: seq<Ev>, mine: string)
    requires w == PlainWatch(w.level, w.frequency, w.timeframe).(differentSrcGeoip := true, extraInfo := w.extraInfo)
    requires my.srcCountry == Some(mine) || (my.srcCountry == None && my.srcGeoip == Some(mine))
    ensures Found(scan, w, my, now, h).Some? <==>
      |set k: nat | k < WalkLength(w, now, h) && (scan.LastEvents? ==> h[k].attrs.category == my.category)
         && (scan.LastEvents? || w.extraInfo ==>
               match h[k].attrs.srcCountry
               case Some(code) => code != mine
               case None => h[k].attrs.srcGeoip.Some? && h[k].attrs.srcGeoip.value != mine)| > w.frequency
  {
    OneTest(scan, w, my, now, h, Country,
      set k: nat | k < WalkLength(w, now, h) && (scan.LastEvents? ==> h[k].attrs.category == my.category)
         && (scan.LastEvents? || w.extraInfo ==>
               match h[k].attrs.srcCountry
               case Some(code) => code != mine
               case None => h[k].attrs.srcGeoip.Some? && h[k].attrs.srcGeoip.value != mine));
  }

  /** An event whose own country is not known finds nothing with such a rule. */
  lemma UnknownCountryFindsNothing(scan: Scan, w: Watch, my: Attrs, now: int, h: seq<Ev>)
    requires w.differentSrcGeoip && (scan.LastEvents? || w.extraInfo) && my.srcCountry == my.srcGeoip == None
    ensures Found(scan, w, my, now, h) == None
  {
    SearchCounts(scan, w, my, now, h);
    hide Found, WalkLength;
    assert Asked(scan, w, Country);
    assert forall k | 0 <= k < |h| :: !Passes(Country, my, h[k].attrs);
    assert Meeting(scan, w, my, h) == {};
    assert (set k | k in Meeting(scan, w, my, h) && k < WalkLength(w, now, h)) == {};
  }
}
