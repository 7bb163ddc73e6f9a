/**
 The accumulator: events of one agent, host, decoder and id share their user, address, port and data
 fields for as long as they keep coming.
 */
module Accumulators {
  import opened Wrappers

  const EXPIRE_ELM := 120
  const PURGE_INTERVAL := 300
  const PURGE_COUNT := 200
  const MAX_KEY := 640
  const MAX_ELM := 81

  datatype Field = DstUser | SrcUser | DstIp | SrcIp | DstPort | SrcPort | Data

  datatype Fields = Fields(
    dstUser: Option<string>,
    srcUser: Option<string>,
    dstIp: Option<string>,
    srcIp: Option<string>,
    dstPort: Option<string>,
    srcPort: Option<string>,
    data: Option<string>)

  const NO_FIELDS := Fields(None, None, None, None, None, None, None)

  function Get(f: Fields, x: Field): Option<string> {
    match x
    case DstUser => f.dstUser
    case SrcUser => f.srcUser
    case DstIp => f.dstIp
    case SrcIp => f.srcIp
    case DstPort => f.dstPort
    case SrcPort => f.srcPort
    case Data => f.data
  }

  predicate Blank(v: Option<string>) {
    v == None || v == Some("")
  }

  /** A value that may be copied: one to eighty characters. */
  predicate Copies(v: Option<string>) {
    v.Some? && 0 < |v.value| <= MAX_ELM - 1
  }

  /** acm_str_replace: a field that has a value keeps it. */
  function Replaced(dst: Option<string>, src: Option<string>): Option<string> {
    if Blank(dst) && Copies(src) then src else dst
  }

  function Filled(dst: Fields, src: Fields): Fields {
    Fields(
      Replaced(dst.dstUser, src.dstUser),
      Replaced(dst.srcUser, src.srcUser),
      Replaced(dst.dstIp, src.dstIp),
      Replaced(dst.srcIp, src.srcIp),
      Replaced(dst.dstPort, src.dstPort),
      Replaced(dst.srcPort, src.srcPort),
      Replaced(dst.data, src.data))
  }

  datatype Entry = Entry(timestamp: int, fields: Fields)

  type Store = map<string, Entry>

  /** The test made when an entry is looked up. */
  predicate Expired(e: Entry, now: int) {
    e.timestamp > 0 && e.timestamp < now - EXPIRE_ELM
  }

  /** The test made when the store is purged. */
  predicate Stale(e: Entry, now: int) {
    e.timestamp < now - EXPIRE_ELM
  }

  /** What is remembered under a key at this time. */
  function Remembered(s: Store, key: string, now: int): Fields {
    if key in s && !Expired(s[key], now) then s[key].fields else NO_FIELDS
  }

  /** The fields of an event after accumulation. */
  function Output(s: Store, key: string, f: Fields, now: int): Fields {
    Filled(f, Remembered(s, key, now))
  }

  function Updated(s: Store, key: string, f: Fields, now: int): Store {
    s[key := Entry(now, Filled(Remembered(s, key, now), Output(s, key, f, now)))]
  }

  function Purged(s: Store, now: int): Store {
    map k | k in s && !Stale(s[k], now) :: s[k]
  }

  /** What an event asks of the accumulator. */
  datatype Target = NoId | LongKey | At(key: string)

  /** One event, and the two readings of the clock it meets: before the cleanup and after it. */
  datatype Call = Call(target: Target, fields: Fields, cleanAt: int, now: int)

  datatype State = State(store: Store, lookups: int, purgeTs: int)

  predicate Due(s: State, now: int) {
    s.lookups + 1 >= PURGE_COUNT || s.purgeTs >= now + PURGE_INTERVAL
  }

  function Cleaned(s: State, now: int): State {
    if Due(s, now) then State(Purged(s.store, now), 0, now) else s.(lookups := s.lookups + 1)
  }

  function Step(s: State, c: Call): State {
    match c.target
    case NoId => s
    case LongKey => Cleaned(s, c.cleanAt)
    case At(key) => var r := Cleaned(s, c.cleanAt); r.(store := Updated(r.store, key, c.fields, c.now))
  }

  /** The fields of the event when it leaves. */
  function Result(s: State, c: Call): Fields {
    if c.target.At? then Output(Cleaned(s, c.cleanAt).store, c.target.key, c.fields, c.now) else c.fields
  }

  class Event {
    const agent: Option<string>
    const hostname: Option<string>
    const decoder: Option<string>
    const id: Option<string>
    var fields: Fields

    function Key(): (key: string)
      requires decoder.Some? && id.Some?
    {
      agent.GetOr("") + " " + hostname.GetOr("") + " " + decoder.value + " " + id.value
    }

    function Target(): Target {
      if id.None? || decoder.None? then NoId
      else if |Key()| >= MAX_KEY then LongKey
      else At(Key())
    }
  }

  class Accumulator {
    var store: Store
    var lookups: int
    var purgeTs: int

    constructor (now: int)
      ensures store == map[] && lookups == 0 && purgeTs == now
    {
      store, lookups, purgeTs := map[], 0, now;
    }

    function View(): State
      reads this
    {
      State(store, lookups, purgeTs)
    }

    /** Accumulate_CleanUp_Store; the order in which the buckets are walked does not matter. */
    method CleanUp(now: int)
      modifies this
      ensures View() == Cleaned(old(View()), now)
    {
      lookups := lookups + 1;
      if lookups < PURGE_COUNT && purgeTs < now + PURGE_INTERVAL {
        return;
      }
      lookups := 0;
      purgeTs := now;
      var unvisited := store.Keys;
      while unvisited != {}
        invariant unvisited <= store.Keys <= old(store).Keys
        invariant forall k | k in store :: store[k] == old(store)[k]
        invariant forall k | k in old(store) && k !in unvisited :: k in store <==> !Stale(old(store)[k], now)
        invariant lookups == 0 && purgeTs == now
        decreases |unvisited|
      {
        var key :| key in unvisited;
        unvisited := unvisited - {key};
        if store[key].timestamp < now - EXPIRE_ELM {
          store := store - {key};
        }
      }
      assert store == Purged(old(store), now);
    }

    /** Accumulate; the clock is read once for the cleanup and once after it. */
    method Accumulate(lf: Event, cleanAt: int, now: int)
      modifies this, lf`fields
      ensures View() == Step(old(View()), Call(lf.Target(), old(lf.fields), cleanAt, now))
      ensures lf.fields == Result(old(View()), Call(lf.Target(), old(lf.fields), cleanAt, now))
    {
      if lf.id.None? || lf.decoder.None? {
        return;
      }
      CleanUp(cleanAt);
      var key := lf.Key();
      if |key| >= MAX_KEY {
        return;
      }
      var stored := NO_FIELDS;
      if key in store {
        var found := store[key];
        if found.timestamp > 0 && found.timestamp < now - EXPIRE_ELM {
          store := store - {key};
        } else {
          stored := found.fields;
          lf.fields := Filled(lf.fields, stored);
        }
      }
      stored := Filled(stored, lf.fields);
      store := store[key := Entry(now, stored)];
    }
  }

  // -------------------------------------------------------------------------------------------
  // Runs under a clock that does not go back

  /** The clock readings of a run, from time `t` on. */
  predicate Clocked(calls: seq<Call>, t: int)
    decreases |calls|
  {
    calls == [] || (t <= calls[0].cleanAt <= calls[0].now && Clocked(calls[1..], calls[0].now))
  }

  function Results(s: State, calls: seq<Call>): seq<Fields>
    decreases |calls|
  {
    if calls == [] then [] else [Result(s, calls[0])] + Results(Step(s, calls[0]), calls[1..])
  }

  /** The same events without any cleanup. */
  function PlainStep(u: Store, c: Call): Store {
    if c.target.At? then Updated(u, c.target.key, c.fields, c.now) else u
  }

  function PlainResult(u: Store, c: Call): Fields {
    if c.target.At? then Output(u, c.target.key, c.fields, c.now) else c.fields
  }

  function PlainResults(u: Store, calls: seq<Call>): seq<Fields>
    decreases |calls|
  {
    if calls == [] then [] else [PlainResult(u, calls[0])] + PlainResults(PlainStep(u, calls[0]), calls[1..])
  }

  /** `p` is `u` without some entries that nobody can use any more at time `t`. */
  ghost predicate PurgedFrom(p: Store, u: Store, t: int) {
    && (forall k | k in p :: k in u && p[k] == u[k])
    && (forall k | k in u && k !in p :: Expired(u[k], t))
    && (forall k | k in u :: 0 < u[k].timestamp <= t)
  }

  lemma StepPurgedFrom(s: State, u: Store, c: Call, t: int)
    requires PurgedFrom(s.store, u, t) && 0 < t <= c.cleanAt <= c.now
    ensures Result(s, c) == PlainResult(u, c)
    ensures PurgedFrom(Step(s, c).store, PlainStep(u, c), c.now)
  {
  }

  /** The purge is invisible: with a clock that does not go back, and entries made after time zero, every
      sequence of events leaves with the same fields as if nothing were ever purged. */
  lemma {:induction false} PurgeIsInvisible(s: State, u: Store, calls: seq<Call>, t: int)
    requires 0 < t && PurgedFrom(s.store, u, t) && Clocked(calls, t)
    ensures Results(s, calls) == PlainResults(u, calls)
    decreases |calls|
  {
    if calls != [] {
      StepPurgedFrom(s, u, calls[0], t);
      PurgeIsInvisible(Step(s, calls[0]), PlainStep(u, calls[0]), calls[1..], calls[0].now);
    }
  }

  /** The condition on the time is exact: a purge changes what the next event of a key gets just when the
      key's entry was made at time zero or before, is stale, and would have filled a field. */
  lemma PurgeIsSeen(s: Store, key: string, f: Fields, cleanAt: int, now: int)
    requires cleanAt <= now
    ensures Output(Purged(s, cleanAt), key, f, now) != Output(s, key, f, now)
      <==> key in s && s[key].timestamp <= 0 && Stale(s[key], cleanAt) && Filled(f, s[key].fields) != f
  {
    assert Filled(f, NO_FIELDS) == f;
    assert key in Purged(s, cleanAt) <==> key in s && !Stale(s[key], cleanAt);
  }

  /** An entry of time zero is purged although a lookup would never find it expired. */
  lemma TimeZeroIsVisible(f: Fields, value: string)
    requires f == NO_FIELDS.(data := Some(value)) && 0 < |value| < MAX_ELM
    ensures var s := State(map["k" := Entry(0, f)], PURGE_COUNT - 1, 0);
      var c := Call(At("k"), NO_FIELDS, EXPIRE_ELM + 1, EXPIRE_ELM + 1);
      Result(s, c) == NO_FIELDS && PlainResult(s.store, c) == f
  {
    var s := State(map["k" := Entry(0, f)], PURGE_COUNT - 1, 0);
    assert Purged(s.store, EXPIRE_ELM + 1) == map[];
  }

  /** The interval never triggers a purge: only every two hundredth lookup does. */
  lemma {:induction false} OnlyTheCountPurges(s: State, calls: seq<Call>, c: Call, t: int)
    requires s.purgeTs <= t && Clocked(calls, t)
    requires c.cleanAt >= (if calls == [] then t else calls[|calls| - 1].now)
    ensures Due(After(s, calls), c.cleanAt) <==> After(s, calls).lookups + 1 >= 200
    decreases |calls|
  {
    if calls != [] {
      OnlyTheCountPurges(Step(s, calls[0]), calls[1..], c, calls[0].now);
    }
  }

  /** Between two such lookups a purge happens exactly if the clock is 300 seconds or more behind the last purge. */
  lemma IntervalNeedsClockBack(s: State, now: int)
    requires 0 <= s.lookups && s.lookups + 1 < 200
    ensures Cleaned(s, now).lookups == 0 <==> now + 300 <= s.purgeTs
    ensures Cleaned(s, now).lookups == 0 ==> forall key ::
      key in Cleaned(s, now).store <==> key in s.store && now - s.store[key].timestamp <= 120
    ensures Cleaned(s, now).lookups != 0 ==> Cleaned(s, now).store == s.store
  {
  }

  /** The events that look something up: all with an id and a decoder. */
  function Lookups(calls: seq<Call>): nat {
    if calls == [] then 0 else (if calls[0].target == NoId then 0 else 1) + Lookups(calls[1..])
  }

  /** So a purge comes with every two hundredth of them and with no other. */
  lemma {:induction false} EveryTwoHundredth(s: State, calls: seq<Call>, c: Call, t: int)
    requires s.purgeTs <= t && Clocked(calls, t) && 0 <= s.lookups < 200
    requires c.cleanAt >= (if calls == [] then t else calls[|calls| - 1].now)
    ensures After(s, calls).lookups == (s.lookups + Lookups(calls)) % 200
    ensures Due(After(s, calls), c.cleanAt) <==> (s.lookups + Lookups(calls) + 1) % 200 == 0
    decreases |calls|
  {
    if calls == [] {
      LookupCounted(s, c.(target := LongKey));
    } else {
      LookupCounted(s, calls[0]);
      hide Step, Due;
      EveryTwoHundredth(Step(s, calls[0]), calls[1..], c, calls[0].now);
      Round(s.lookups, if calls[0].target == NoId then 0 else 1, Lookups(calls[1..]));
      Round(s.lookups, if calls[0].target == NoId then 0 else 1, Lookups(calls[1..]) + 1);
    }
  }

  lemma LookupCounted(s: State, c: Call)
    requires 0 <= s.lookups < 200 && s.purgeTs <= c.cleanAt
    ensures Step(s, c).lookups == (s.lookups + if c.target == NoId then 0 else 1) % 200
    ensures Step(s, c).purgeTs == s.purgeTs || Step(s, c).purgeTs == c.cleanAt
    ensures Due(s, c.cleanAt) <==> (s.lookups + 1) % 200 == 0
  {
  }

  lemma Round(a: nat, b: nat, c: nat)
    ensures ((a + b) % 200 + c) % 200 == (a + b + c) % 200
  {
  }

  function After(s: State, calls: seq<Call>): State
    decreases |calls|
  {
    if calls == [] then s else After(Step(s, calls[0]), calls[1..])
  }

  // -------------------------------------------------------------------------------------------
  // The first writer wins

  function PlainAfter(u: Store, calls: seq<Call>): Store {
    if calls == [] then u else PlainStep(PlainAfter(u, calls[..|calls| - 1]), calls[|calls| - 1])
  }

  /** The calls for one key. */
  function Of(calls: seq<Call>, key: string): (r: seq<Call>)
    ensures |r| <= |calls|
  {
    if calls == [] then []
    else
      var c := calls[|calls| - 1];
      if c.target == At(key) then Of(calls[..|calls| - 1], key) + [c] else Of(calls[..|calls| - 1], key)
  }

  /** Where the present entry starts: after the last gap of more than 120 seconds. */
  function EntryStart(own: seq<Call>): (n: nat)
    requires own != []
    ensures n < |own|
  {
    var n := |own| - 1;
    if n == 0 || own[n - 1].now < own[n].now - EXPIRE_ELM then n else EntryStart(own[..n])
  }

  /** The first value of one to eighty characters that the calls bring for a field. */
  function FirstValue(own: seq<Call>, x: Field): Option<string> {
    if own == [] then None
    else if Copies(Get(own[0].fields, x)) then Get(own[0].fields, x)
    else FirstValue(own[1..], x)
  }

  lemma {:induction false} FirstValueLast(own: seq<Call>, c: Call, x: Field)
    ensures FirstValue(own + [c], x)
      == if FirstValue(own, x).Some? then FirstValue(own, x)
        else if Copies(Get(c.fields, x)) then Get(c.fields, x)
        else None
  {
    if own == [] {
      assert [] + [c] == [c];
    } else {
      FirstValueLast(own[1..], c, x);
      assert (own + [c])[1..] == own[1..] + [c];
    }
  }

  predicate Positive(calls: seq<Call>) {
    forall i | 0 <= i < |calls| :: calls[i].now > 0
  }

  /** First writer wins: after any events, a key that occurred has an entry of the time it was last met,
      and every field of it is the first usable value met since the entry started; a key that did not
      occur has none. */
  lemma {:induction false} FirstWriterWins(calls: seq<Call>, key: string, x: Field)
    requires Positive(calls)
    ensures var s, own := PlainAfter(map[], calls), Of(calls, key);
      && (key in s <==> own != [])
      && (own != [] ==>
            && s[key].timestamp == own[|own| - 1].now > 0
            && Get(s[key].fields, x) == FirstValue(own[EntryStart(own)..], x))
  {
    hide Filled, Get, EntryStart, FirstValue;
    if calls != [] {
      var n := |calls| - 1;
      FirstWriterWins(calls[..n], key, x);
      assert calls[n].now > 0;
      if calls[n].target == At(key) {
        EntryGrows(PlainAfter(map[], calls[..n]), Of(calls[..n], key), calls[n], key, x);
      } else {
        assert Of(calls, key) == Of(calls[..n], key);
      }
    }
  }

  lemma GetFilled(dst: Fields, src: Fields, x: Field)
    ensures Get(Filled(dst, src), x) == Replaced(Get(dst, x), Get(src, x))
  {
  }

  lemma NothingRemembered(x: Field)
    ensures Get(NO_FIELDS, x) == None
  {
  }

  lemma EntryGrows(s: Store, own: seq<Call>, c: Call, key: string, x: Field)
    requires c.target == At(key) && c.now > 0
    requires key in s <==> own != []
    requires own != [] ==>
      && s[key].timestamp == own[|own| - 1].now > 0
      && Get(s[key].fields, x) == FirstValue(own[EntryStart(own)..], x)
    ensures Get(PlainStep(s, c)[key].fields, x) == FirstValue((own + [c])[EntryStart(own + [c])..], x)
  {
    var all := own + [c];
    assert all[..|own|] == own;
    var base := Remembered(s, key, c.now);
    GetFilled(c.fields, base, x);
    GetFilled(base, Filled(c.fields, base), x);
    NothingRemembered(x);
    hide Filled, Get;
    var k := EntryStart(all);
    if k == |own| {
      assert all[k..] == [] + [c];
      FirstValueLast([], c, x);
    } else {
      assert all[k..] == own[k..] + [c];
      FirstValueLast(own[k..], c, x);
      FirstValueCopies(own[k..], x);
    }
  }

  lemma {:induction false} FirstValueCopies(own: seq<Call>, x: Field)
    ensures FirstValue(own, x).Some? ==> Copies(FirstValue(own, x))
  {
    if own != [] {
      FirstValueCopies(own[1..], x);
    }
  }

  // -------------------------------------------------------------------------------------------
  // Which events share an entry

  predicate NoBlank(s: string) {
    forall i | 0 <= i < |s| :: s[i] != ' '
  }

  /** A text without blanks, a blank and some more text can be taken apart in one way only. */
  lemma FirstWord(a: string, b: string, c: string, d: string)
    requires NoBlank(a) && NoBlank(c) && a + " " + b == c + " " + d
    ensures a == c && b == d
  {
    var s := a + " " + b;
    assert s[|a|] == ' ' && forall i | 0 <= i < |a| :: s[i] == a[i];
    assert s[|c|] == ' ' && forall i | 0 <= i < |c| :: s[i] == c[i];
    assert s[..|a|] == a && s[..|c|] == c && s[|a| + 1..] == b && s[|c| + 1..] == d;
  }

  lemma FourWords(e: Event)
    requires e.id.Some? && e.decoder.Some?
    ensures e.Key() == e.agent.GetOr("") + " " + (e.hostname.GetOr("") + " " + (e.decoder.value + " " + e.id.value))
  {
  }

  /** Two events whose agent, hostname and decoder have no blanks share an entry exactly when these and the id agree,
      where a missing agent or hostname is as good as an empty one. */
  lemma SharedEntry(e: Event, f: Event)
    requires e.Target().At? && f.Target().At?
    requires NoBlank(e.agent.GetOr("")) && NoBlank(e.hostname.GetOr("")) && NoBlank(e.decoder.GetOr(""))
    requires NoBlank(f.agent.GetOr("")) && NoBlank(f.hostname.GetOr("")) && NoBlank(f.decoder.GetOr(""))
    ensures e.Target() == f.Target() <==>
      && (match e.agent case Some(a) => a case None => "") == (match f.agent case Some(a) => a case None => "")
      && (match e.hostname case Some(h) => h case None => "") == (match f.hostname case Some(h) => h case None => "")
      && e.decoder == f.decoder && e.id == f.id
  {
    FourWords(e);
    FourWords(f);
    var x, y := e.decoder.value + " " + e.id.value, f.decoder.value + " " + f.id.value;
    var v, w := e.hostname.GetOr("") + " " + x, f.hostname.GetOr("") + " " + y;
    if e.Target() == f.Target() {
      FirstWord(e.agent.GetOr(""), v, f.agent.GetOr(""), w);
      FirstWord(e.hostname.GetOr(""), x, f.hostname.GetOr(""), y);
      FirstWord(e.decoder.value, e.id.value, f.decoder.value, f.id.value);
    }
  }

  /** An event has an entry exactly when it has an id and a decoder and the four with their blanks are short enough. */
  lemma HasEntry(e: Event)
    ensures e.Target().At? <==>
      && e.id.Some? && e.decoder.Some?
      && (match e.agent case Some(a) => |a| case None => 0) + (match e.hostname case Some(h) => |h| case None => 0)
           + |e.decoder.value| + |e.id.value| + 3 < 640
  {
  }

  /** Entries are made after time zero. */
  ghost predicate Dated(s: State) {
    forall key | key in s.store :: s.store[key].timestamp > 0
  }

  /** What an event gets does not depend on the events of other entries before it, under a clock that does not go
      back. */
  lemma OtherEntriesDoNotMatter(s: State, c: Call, d: Call)
    requires Dated(s) && c.cleanAt <= c.now <= d.cleanAt <= d.now && c.target != d.target
    ensures Result(Step(s, c), d) == Result(s, d)
  {
    if d.target.At? {
      var k := d.target.key;
      hide Filled;
      assert Remembered(Cleaned(Step(s, c), d.cleanAt).store, k, d.now) == Remembered(s.store, k, d.now);
      assert Remembered(Cleaned(s, d.cleanAt).store, k, d.now) == Remembered(s.store, k, d.now);
    }
  }

  /** So an event gets nothing from one of another agent, host, decoder or id. */
  lemma NothingFromOthers(s: State, e: Event, was: Fields, cleanAt: int, now: int, f: Event,
                          g: Fields, nextCleanAt: int, next: int)
    requires Dated(s) && cleanAt <= now <= nextCleanAt <= next
    requires NoBlank(e.agent.GetOr("")) && NoBlank(e.hostname.GetOr("")) && NoBlank(e.decoder.GetOr(""))
    requires NoBlank(f.agent.GetOr("")) && NoBlank(f.hostname.GetOr("")) && NoBlank(f.decoder.GetOr(""))
    requires e.agent.GetOr("") != f.agent.GetOr("") || e.hostname.GetOr("") != f.hostname.GetOr("")
      || e.decoder != f.decoder || e.id != f.id
    ensures Result(Step(s, Call(e.Target(), was, cleanAt, now)), Call(f.Target(), g, nextCleanAt, next))
      == Result(s, Call(f.Target(), g, nextCleanAt, next))
  {
    if f.Target().At? {
      if e.Target().At? { SharedEntry(e, f); }
      OtherEntriesDoNotMatter(s, Call(e.Target(), was, cleanAt, now), Call(f.Target(), g, nextCleanAt, next));
    }
  }

  /** A field of the event: what it has stays; an empty one takes the value of an entry not more than 120 seconds old,
      if that is of one to eighty characters. */
  lemma FieldGot(s: Store, key: string, f: Fields, now: int, x: Field)
    ensures var entry := if key in s then Get(s[key].fields, x) else None;
      Get(Output(s, key, f, now), x) ==
        if (Get(f, x) == None || Get(f, x) == Some("")) && entry.Some? && 1 <= |entry.value| <= 80
           && (s[key].timestamp <= 0 || now - s[key].timestamp <= 120)
        then entry else Get(f, x)
  {
    GetFilled(f, Remembered(s, key, now), x);
    NothingRemembered(x);
    hide Filled;
  }

  /** The same field of the entry afterwards: what it had stays if it is not too old; an empty one takes the value of
      the event, if that is of one to eighty characters. */
  lemma FieldKept(s: Store, key: string, f: Fields, now: int, x: Field)
    ensures var alive := key in s && (s[key].timestamp <= 0 || now - s[key].timestamp <= 120);
      var had := if alive then Get(s[key].fields, x) else None;
      var entry := Updated(s, key, f, now)[key];
      && entry.timestamp == now
      && Get(entry.fields, x) ==
           if (had == None || had == Some("")) && Get(f, x).Some? && 1 <= |Get(f, x).value| <= 80
           then Get(f, x) else had
  {
    var base := Remembered(s, key, now);
    GetFilled(f, base, x);
    GetFilled(base, Output(s, key, f, now), x);
    NothingRemembered(x);
    hide Filled;
  }
}
