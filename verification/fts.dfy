/** First-time-seen events: which keys are new, how long a key is remembered, and why a remembered key is
    never missing from the file for good. */
module FirstTimeSeen {
  import opened Wrappers
  import opened Events
  import opened RecordFile
  import opened RecordStores
  import opened IgnoreFields

  const FTS_FIELDS: nat := 9

  /** OS_StrHowClosedMatch: how long the common start of two non-empty texts is. */
  function CommonStart(a: string, b: string): (n: nat)
    ensures n <= |a| && n <= |b| && a[..n] == b[..n]
    ensures n < |a| && n < |b| ==> a[n] != b[n]
  {
    if a == "" || b == "" || a[0] != b[0] then 0 else 1 + CommonStart(a[1..], b[1..])
  }

  method HowClosedMatch(a: string, b: string) returns (count: nat)
    requires a != "" && b != ""
    ensures count == CommonStart(a, b)
  {
    count := 0;
    while count < |a| && count < |b| && a[count] == b[count]
      invariant count <= |a| && count <= |b|
      invariant CommonStart(a, b) == count + CommonStart(a[count..], b[count..])
    {
      assert a[count..][1..] == a[count + 1..] && b[count..][1..] == b[count + 1..];
      count := count + 1;
    }
  }

  /** How many recent lines start alike for more than `minSize` characters. */
  function SimilarLines(recent: seq<string>, line: string, minSize: nat): (n: nat)
    ensures n <= |recent|
  {
    if recent == [] then 0
    else (if CommonStart(recent[0], line) > minSize then 1 else 0) + SimilarLines(recent[1..], line, minSize)
  }

  /** The key an intrusion detection event is stored under: after three similar lines only the common start. */
  function IdsKey(recent: seq<string>, line: string, minSize: nat): (key: string)
    ensures key <= line
  {
    if SimilarLines(recent, line, minSize) > 2 && minSize <= |line| then line[..minSize] else line
  }

  /** A bounded list of lines after one more. */
  function Pushed(recent: seq<string>, bound: nat, line: string): seq<string> {
    if |recent| >= bound && recent != [] then recent[1..] + [line] else recent + [line]
  }

  class Fts {
    const minSize: nat
    const recentSize: nat
    const records: RecordStore
    var recent: seq<string>

    ghost predicate Valid()
      reads this, records
    {
      && records.Valid() && 0 < minSize && 1 < recentSize
      && |recent| <= recentSize
      && (forall k | 0 <= k < |recent| :: recent[k] != "")
    }

    constructor (minSize: nat, recentSize: nat, storeSize: nat)
      requires 0 < minSize && 1 < recentSize && 1 < storeSize
      ensures Valid() && fresh(records) && records.list == [] && records.size == storeSize && recent == []
    {
      this.minSize, this.recentSize, recent := minSize, recentSize, [];
      records := new RecordStore(storeSize);
    }

    /** The walk over the recent lines, newest first, that stops at the third similar one. */
    method ThreeSimilar(line: string) returns (enough: bool)
      requires Valid() && line != ""
      ensures enough <==> SimilarLines(recent, line, minSize) > 2
      ensures enough ==> minSize < |line|
    {
      var matches: nat := 0;
      var i := |recent|;
      assert recent[..i] == recent;
      while i > 0
        invariant 0 <= i <= |recent| && matches <= 2
        invariant SimilarLines(recent, line, minSize) == SimilarLines(recent[..i], line, minSize) + matches
      {
        SimilarLast(recent[..i], line, minSize);
        assert recent[..i][..i - 1] == recent[..i - 1];
        i := i - 1;
        var close := HowClosedMatch(recent[i], line);
        if close > minSize {
          matches := matches + 1;
          if matches > 2 {
            return true;
          }
        }
      }
      return false;
    }

    /** FTS, for the fields of an event. The result 1 is `isNew`, and `pending` the line still to be written. */
    method Check(fields: seq<string>, isIds: bool) returns (isNew: bool, pending: Option<string>)
      requires Valid() && |fields| == FTS_FIELDS
      modifies this, records
      ensures Valid()
      ensures var line := Cut(Joined(fields));
        var key := if isIds then IdsKey(old(recent), line, minSize) else line;
        && (isNew <==> line !in old(records.list) && key !in old(records.list))
        && records.list == (if line in old(records.list) then old(records.list)
          else Stored(old(records.list), records.size, key))
        && recent == (if isIds && line !in old(records.list) then Pushed(old(recent), recentSize, key) else old(recent))
        && pending == if isNew then Some(key) else None
    {
      hide Joined, SimilarLines, Stored;
      JoinedIsLong(fields);
      var line := Cut(Joined(fields));
      if line in records.keys {
        return false, None;
      }
      var key := line;
      if isIds {
        var enough := ThreeSimilar(line);
        if enough {
          key := line[..minSize];
        }
        recent := recent + [key];
        if |recent| > recentSize {
          recent := recent[1..];
        }
      }
      isNew := records.Add(key);
      pending := if isNew then Some(key) else None;
    }
  }

  lemma {:induction false} SimilarLast(recent: seq<string>, line: string, minSize: nat)
    requires recent != []
    ensures var n := |recent| - 1;
      SimilarLines(recent, line, minSize)
      == SimilarLines(recent[..n], line, minSize) + if CommonStart(recent[n], line) > minSize then 1 else 0
  {
    var n := |recent| - 1;
    if n > 0 {
      SimilarLast(recent[1..], line, minSize);
      assert recent[1..][..n - 1] == recent[..n][1..];
    }
  }

  // -------------------------------------------------------------------------------------------
  // How long a key is remembered

  /** The records of a run that were new when they came, in order: those for which FTS returns 1. */
  function NewOnes(list: seq<string>, size: nat, records: seq<string>): (news: seq<string>)
    ensures |news| <= |records|
  {
    if records == [] then []
    else
      var n := |records| - 1;
      var news := NewOnes(list, size, records[..n]);
      if records[n] in StoredAll(list, size, records[..n]) then news else news + [records[n]]
  }

  lemma StoredAllLast(list: seq<string>, size: nat, records: seq<string>)
    requires records != []
    ensures var n := |records| - 1;
      StoredAll(list, size, records) == Stored(StoredAll(list, size, records[..n]), size, records[n])
  {
    var n := |records| - 1;
    StoredAllMore(list, size, records[..n], [records[n]]);
    assert records[..n] + [records[n]] == records;
    assert StoredAll(StoredAll(list, size, records[..n]), size, [records[n]])
        == StoredAll(Stored(StoredAll(list, size, records[..n]), size, records[n]), size, []);
  }

  lemma {:induction false} StoredAllKeeps(list: seq<string>, size: nat, records: seq<string>)
    requires Distinct(list) && |list| <= size && size > 0
    ensures Distinct(StoredAll(list, size, records)) && |StoredAll(list, size, records)| <= size
  {
    if records != [] {
      StoredAllLast(list, size, records);
      StoredAllKeeps(list, size, records[..|records| - 1]);
      StoredKeeps(StoredAll(list, size, records[..|records| - 1]), size, records[|records| - 1]);
    }
  }

  /** `key` followed by the new records is the newest part of the list. */
  predicate EndsWith(list: seq<string>, tail: seq<string>) {
    |tail| <= |list| && list[|list| - |tail|..] == tail
  }

  lemma StoredEnds(list: seq<string>, size: nat, tail: seq<string>, r: string)
    requires EndsWith(list, tail) && |list| <= size && |tail| < size && r !in list
    ensures EndsWith(Stored(list, size, r), tail + [r])
  {
    var s := Stored(list, size, r);
    assert s[|s| - |tail| - 1..] == list[|list| - |tail|..] + [r];
  }

  /** A key just stored stays the start of the newest part until `size` further keys were new; those are
      pairwise distinct and different from it. */
  lemma {:induction false} Remembered(list: seq<string>, size: nat, key: string, records: seq<string>)
    requires Distinct(list) && 0 < |list| <= size && list[|list| - 1] == key
    ensures var news := NewOnes(list, size, records);
      if |news| < size then EndsWith(StoredAll(list, size, records), [key] + news)
      else Distinct(news[..size]) && key !in news[..size]
  {
    if records == [] {
      assert [key] + [] == [key];
    } else {
      var n := |records| - 1;
      Remembered(list, size, key, records[..n]);
      StoredAllLast(list, size, records);
      StoredAllKeeps(list, size, records[..n]);
      RememberedStep(StoredAll(list, size, records[..n]), size, key, NewOnes(list, size, records[..n]), records[n]);
    }
  }

  lemma RememberedStep(list: seq<string>, size: nat, key: string, news: seq<string>, r: string)
    requires Distinct(list) && |list| <= size
    requires if |news| < size then EndsWith(list, [key] + news) else Distinct(news[..size]) && key !in news[..size]
    ensures var news' := if r in list then news else news + [r];
      if |news'| < size then EndsWith(Stored(list, size, r), [key] + news')
      else Distinct(news'[..size]) && key !in news'[..size]
  {
    if r !in list {
      if |news| + 1 < size {
        StoredEnds(list, size, [key] + news, r);
        assert [key] + news + [r] == [key] + (news + [r]);
      } else if |news| < size {
        assert list == [key] + news;
        assert (news + [r])[..size] == list[1..] + [r];
        assert list[0] == key;
      } else {
        assert (news + [r])[..size] == news[..size];
      }
    }
  }

  /** First-time-seen distance. Between two events that are reported as first seen under one key, at
      least as many other keys were reported as the store holds, all of them different. */
  lemma FirstSeenTwice(list: seq<string>, size: nat, key: string, between: seq<string>)
    requires Distinct(list) && |list| <= size && size > 0 && key !in list
    requires key !in StoredAll(Stored(list, size, key), size, between)
    ensures var news := NewOnes(Stored(list, size, key), size, between);
      |news| >= size && Distinct(news[..size]) && key !in news[..size]
  {
    StoredKeeps(list, size, key);
    var l := Stored(list, size, key);
    Remembered(l, size, key, between);
    RememberedIsThere(StoredAll(l, size, between), key, NewOnes(l, size, between));
  }

  lemma RememberedIsThere(list: seq<string>, key: string, news: seq<string>)
    ensures EndsWith(list, [key] + news) ==> key in list
  {
    if EndsWith(list, [key] + news) {
      assert list[|list| - |news| - 1..][0] == key;
    }
  }

  // -------------------------------------------------------------------------------------------
  // Similar lines

  /** The recent lines that share more than `minSize` characters with a line from the start on. */
  ghost function Alike(recent: seq<string>, line: string, minSize: nat): set<nat> {
    set k: nat | k < |recent| && minSize < |recent[k]| && minSize < |line|
              && recent[k][..minSize + 1] == line[..minSize + 1]
  }

  lemma CommonStartIs(a: string, b: string, n: nat)
    ensures CommonStart(a, b) > n <==> n < |a| && n < |b| && a[..n + 1] == b[..n + 1]
  {
    var m := CommonStart(a, b);
    if m > n {
      assert a[..n + 1] == a[..m][..n + 1] && b[..n + 1] == b[..m][..n + 1];
    } else if n < |a| && n < |b| {
      assert a[..n + 1][m] != b[..n + 1][m];
    }
  }

  lemma AlikeLast(recent: seq<string>, line: string, minSize: nat)
    requires recent != []
    ensures var n := |recent| - 1;
      && n !in Alike(recent[..n], line, minSize)
      && Alike(recent, line, minSize)
        == Alike(recent[..n], line, minSize) + if CommonStart(recent[n], line) > minSize then {n} else {}
  {
    hide CommonStart;
    CommonStartIs(recent[|recent| - 1], line, minSize);
  }

  lemma {:induction false} SimilarAreAlike(recent: seq<string>, line: string, minSize: nat)
    ensures SimilarLines(recent, line, minSize) == |Alike(recent, line, minSize)|
  {
    hide Alike, CommonStart;
    if recent == [] {
      NobodyAlike(line, minSize);
    } else {
      SimilarAreAlike(recent[..|recent| - 1], line, minSize);
      SimilarLast(recent, line, minSize);
      AlikeLast(recent, line, minSize);
    }
  }

  lemma NobodyAlike(line: string, minSize: nat)
    ensures Alike([], line, minSize) == {}
  {
  }

  /** An intrusion detection event is stored under its first `minSize` characters exactly if three recent lines at least
      are alike for more than that. */
  lemma KeyOfAlike(recent: seq<string>, line: string, minSize: nat)
    ensures IdsKey(recent, line, minSize) ==
      if |Alike(recent, line, minSize)| >= 3 then line[..minSize] else line
  {
    SimilarAreAlike(recent, line, minSize);
    if |Alike(recent, line, minSize)| >= 3 {
      var k :| k in Alike(recent, line, minSize);
    }
  }

  /** The recent lines are the newest keys of such events. */
  lemma WindowIsNewest(recent: seq<string>, bound: nat, line: string)
    requires |recent| <= bound && bound > 0
    ensures var all := recent + [line];
      Pushed(recent, bound, line) == if |all| <= bound then all else all[|all| - bound..]
  {
  }
}
