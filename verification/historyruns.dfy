/**
 What happens to one list of past events in the course of time: events arrive, fall off the old end, are
 freed, and are marked, by searches over this list and by searches over other lists that hold them too.
 */
module HistoryRuns {
  import opened Wrappers
  import opened History

  /** The events of a list, newest first, and for each entry the number of its event in the order of arrival.
      One event may have several entries. */
  datatype Past = Past(evs: seq<Ev>, ids: seq<nat>, next: nat)

  ghost predicate Valid(s: Past) {
    && |s.evs| == |s.ids|
    && (forall i | 0 <= i < |s.ids| :: s.ids[i] < s.next)
    && Descending(s.ids)
    && (forall i, j | 0 <= i < j < |s.ids| && s.ids[i] == s.ids[j] :: s.evs[i] == s.evs[j])
  }

  ghost predicate Descending(ids: seq<nat>) {
    forall i, j | 0 <= i < j < |ids| :: ids[j] <= ids[i]
  }

  /** `Add` is OS_AddEvent_List. `Append` is OSList_AddData on a list with a bound, or without one (0), and
      `AppendAll` the same on an unbounded list for each of several places of one event. `Free` is
      Free_Eventinfo for an event of the list. `Search` is a search over this list, and `Mark` sets the mark
      of an event from outside, as a search over another list does. */
  datatype Op =
    | Add(e: Ev, max: int, maxFreq: int)
    | Append(e: Ev, bound: nat)
    | AppendAll(e: Ev, copies: nat)
    | Free(id: nat)
    | Mark(id: nat, level: int)
    | Search(scan: Scan, w: Watch, my: Attrs, now: int)

  function Copies<T>(x: T, n: nat): (s: seq<T>)
    ensures |s| == n && forall i | 0 <= i < n :: s[i] == x
  {
    seq(n, _ => x)
  }

  /** `n` entries of a new event on top, of which and of the old ones the newest `keep` stay. */
  ghost function Pushed(s: Past, e: Ev, n: nat, keep: nat): (r: Past)
    requires Valid(s) && keep <= |s.evs| + n
    ensures Valid(r) && r.next == s.next + 1
    ensures r.evs == (Copies(e, n) + s.evs)[..keep] && r.ids == (Copies(s.next, n) + s.ids)[..keep]
  {
    Past((Copies(e, n) + s.evs)[..keep], (Copies(s.next, n) + s.ids)[..keep], s.next + 1)
  }

  /** How many entries are of events that arrived as number `b` or later. */
  function Newer(ids: seq<nat>, b: nat): (n: nat)
    ensures n <= |ids|
    ensures forall k | 0 <= k < n :: ids[k] >= b
    ensures n < |ids| ==> ids[n] < b
  {
    if ids == [] || ids[0] < b then 0 else 1 + Newer(ids[1..], b)
  }

  /** A sequence without its elements from `a` to `c`. */
  function CutOut<T>(s: seq<T>, a: nat, c: nat): (r: seq<T>)
    requires a <= c <= |s|
    ensures |r| == |s| - (c - a)
    ensures forall i {:trigger r[i]} | 0 <= i < |r| :: r[i] == if i < a then s[i] else s[i + (c - a)]
  {
    s[..a] + s[c..]
  }

  lemma NewerOrder(ids: seq<nat>, id: nat)
    requires Descending(ids)
    ensures Newer(ids, id + 1) <= Newer(ids, id)
    ensures forall i | 0 <= i < |ids| :: ids[i] == id <==> Newer(ids, id + 1) <= i < Newer(ids, id)
  {
    var a, c := Newer(ids, id + 1), Newer(ids, id);
    assert a < |ids| ==> ids[a] <= id;
    forall i | 0 <= i < |ids| ensures ids[i] == id <==> a <= i < c {
      assert i >= a ==> ids[i] <= ids[a];
      assert i >= c ==> ids[i] <= ids[c];
    }
  }

  /** The entries of an event are next to each other; without them the others close up. */
  ghost function Freed(s: Past, id: nat): (r: Past)
    requires Valid(s)
    ensures Valid(r) && r.next == s.next
  {
    NewerOrder(s.ids, id);
    var a, c := Newer(s.ids, id + 1), Newer(s.ids, id);
    Past(CutOut(s.evs, a, c), CutOut(s.ids, a, c), s.next)
  }

  /** All entries of an event get a mark. */
  function MarkedAt(h: seq<Ev>, ids: seq<nat>, id: nat, level: int): (r: seq<Ev>)
    requires |ids| == |h|
    ensures |r| == |h|
    ensures forall i | 0 <= i < |h| :: r[i] == if ids[i] == id then h[i].(matched := level) else h[i]
  {
    seq(|h|, i requires 0 <= i < |h| => if ids[i] == id then h[i].(matched := level) else h[i])
  }

  /** A firing search marks the event found and the event at the head. */
  function Marked(h: seq<Ev>, ids: seq<nat>, found: Option<nat>, level: int): (r: seq<Ev>)
    requires |ids| == |h| && (found.Some? ==> found.value < |h|)
    ensures |r| == |h|
  {
    match found
    case None => h
    case Some(k) => MarkedAt(MarkedAt(h, ids, ids[k], level), ids, ids[0], level)
  }

  ghost function Step(s: Past, op: Op): (r: Past)
    requires Valid(s)
    ensures Valid(r) && s.next <= r.next
  {
    match op
    case Add(e, max, maxFreq) => Pushed(s, e, 1, |Inserted(s.evs, e, max, maxFreq)|)
    case Append(e, bound) =>
      var full := bound > 0 && |s.evs| + 1 > bound && s.evs != [];
      Pushed(s, e, 1, if full then |s.evs| else |s.evs| + 1)
    case AppendAll(e, copies) => Pushed(s, e, copies, |s.evs| + copies)
    case Free(id) => Freed(s, id)
    case Mark(id, level) => s.(evs := MarkedAt(s.evs, s.ids, id, level))
    case Search(scan, w, my, now) =>
      s.(evs := Marked(s.evs, s.ids, Found(scan, w, my, now, s.evs), w.level))
  }

  ghost function Run(s: Past, ops: seq<Op>): (r: Past)
    requires Valid(s)
    ensures Valid(r) && s.next <= r.next
    decreases |ops|
  {
    if ops == [] then s else Run(Step(s, ops[0]), ops[1..])
  }

  lemma {:induction false} RunMore(s: Past, ops: seq<Op>, more: seq<Op>)
    requires Valid(s)
    ensures Run(s, ops + more) == Run(Run(s, ops), more)
    decreases |ops|
  {
    hide Step, Valid;
    if ops == [] {
      assert ops + more == more;
    } else {
      RunMore(Step(s, ops[0]), ops[1..], more);
      assert (ops + more)[1..] == ops[1..] + more;
    }
  }

  predicate Fires(s: Past, op: Op) {
    op.Search? && Found(op.scan, op.w, op.my, op.now, s.evs).Some?
  }

  // ---------------------------------------------------------------------------------------------
  // What a firing search counts

  /** The events at ascending positions of a list. */
  ghost function EventsAt(s: Past, q: seq<nat>): (c: seq<nat>)
    requires Valid(s) && forall t | 0 <= t < |q| :: q[t] < |s.evs|
    ensures |c| == |q| && forall i | 0 <= i < |c| :: c[i] == s.ids[q[i]]
  {
    seq(|q|, i requires 0 <= i < |q| => s.ids[q[i]])
  }

  /** The events a firing search counted, by number; an event with several entries may be there several times. */
  ghost function Counted(s: Past, op: Op): (c: seq<nat>)
    requires Valid(s) && Fires(s, op)
    ensures |c| == op.w.frequency + 1
    ensures c == EventsAt(s, Evidence(op.scan, op.w, op.my, op.now, s.evs)[..op.w.frequency + 1])
  {
    EventsAt(s, Evidence(op.scan, op.w, op.my, op.now, s.evs)[..op.w.frequency + 1])
  }

  /** No event has more than `m` entries. */
  ghost predicate AtMost(s: Past, m: nat)
    requires Valid(s)
  {
    forall i, j | 0 <= i && i + m <= j < |s.ids| :: s.ids[j] < s.ids[i]
  }

  lemma EventsAtOrder(s: Past, q: seq<nat>, m: nat)
    requires Valid(s) && AtMost(s, m) && (forall t | 0 <= t < |q| :: q[t] < |s.evs|)
    requires forall i, j | 0 <= i < j < |q| :: q[i] < q[j]
    ensures var c := EventsAt(s, q);
      && (forall i | 0 <= i < |c| :: c[i] < s.next && c[i] in s.ids)
      && Descending(c)
      && (forall i, j | 0 <= i && i + m <= j < |c| :: c[j] < c[i])
  {
    var c := EventsAt(s, q);
    hide EventsAt;
    forall i, j | 0 <= i && i + m <= j < |q| ensures c[j] < c[i] {
      Spread(q, i, j);
    }
  }

  /** What is counted belongs to the list, comes newest first, and no event more often than it has entries. */
  lemma CountedFromList(s: Past, op: Op, m: nat)
    requires Valid(s) && Fires(s, op) && AtMost(s, m)
    ensures var c := Counted(s, op);
      && (forall i | 0 <= i < |c| :: c[i] < s.next && c[i] in s.ids)
      && Descending(c)
      && (forall i, j | 0 <= i && i + m <= j < |c| :: c[j] < c[i])
  {
    CountedPositions(s, op);
    hide *;
    EventsAtOrder(s, Evidence(op.scan, op.w, op.my, op.now, s.evs)[..op.w.frequency + 1], m);
  }

  lemma CountedPositions(s: Past, op: Op)
    requires Valid(s) && Fires(s, op)
    ensures var e := Evidence(op.scan, op.w, op.my, op.now, s.evs);
      && op.w.frequency < |e| && (forall t | 0 <= t < |e| :: e[t] < |s.evs|)
      && forall i, j | 0 <= i < j < |e| :: e[i] < e[j]
  {
    HitsAreTheQualifying(op.scan, op.w, op.my, s.evs, WalkLength(op.w, op.now, s.evs));
    hide Hits, WalkLength, Valid;
  }

  lemma CountedIsKnown(s: Past, op: Op)
    requires Valid(s) && Fires(s, op)
    ensures forall i | 0 <= i < |Counted(s, op)| :: Counted(s, op)[i] < s.next
  {
  }

  /** Ascending positions are at least as far apart as their indices. */
  lemma {:induction false} Spread(q: seq<nat>, i: nat, j: nat)
    requires i <= j < |q| && forall s, t | 0 <= s < t < |q| :: q[s] < q[t]
    ensures q[i] + (j - i) <= q[j]
  {
    if i < j {
      Spread(q, i, j - 1);
    }
  }

  /** Every firing search counts `frequency` + 1 different events, if each event has one entry. */
  lemma CountedDiffer(s: Past, op: Op)
    requires Valid(s) && Fires(s, op) && AtMost(s, 1)
    ensures forall i, j | 0 <= i < j < |Counted(s, op)| :: Counted(s, op)[i] != Counted(s, op)[j]
  {
    CountedFromList(s, op, 1);
  }

  /** And only then: if some event has two entries, some rule fires and counts it twice. */
  lemma SomethingCountedTwice(s: Past) returns (op: Op, i: nat)
    requires Valid(s) && !AtMost(s, 1)
    ensures Fires(s, op) && i + 1 < |Counted(s, op)| && Counted(s, op)[i] == Counted(s, op)[i + 1]
  {
    var a: nat, j: nat :| a + 1 <= j < |s.ids| && s.ids[j] >= s.ids[a];
    assert s.ids[a + 1] == s.ids[a];
    i := a;
    var w, my := PlainWatch(Highest(s.evs) + 1, i + 1, Oldest(s.evs)), s.evs[0].attrs;
    op := Search(LastSids, w, my, 0);
    PlainFinds(w, my, s.evs);
    var c := Counted(s, op);
    assert c[i] == s.ids[i] && c[i + 1] == s.ids[i + 1];
  }

  function Highest(h: seq<Ev>): (m: int)
    ensures forall k | 0 <= k < |h| :: h[k].matched <= m
  {
    if h == [] then 0
    else
      var m := Highest(h[1..]);
      assert forall k | 1 <= k < |h| :: h[k] == h[1..][k - 1];
      if h[0].matched > m then h[0].matched else m
  }

  /** Only an append in several places makes an event have more entries than any had before. */
  lemma StepKeepsAtMost(s: Past, m: nat, op: Op)
    requires Valid(s) && AtMost(s, m) && m > 0
    ensures AtMost(Step(s, op), m) <==> !(op.AppendAll? && op.copies > m)
  {
    match op
    case Search(_, _, _, _) =>
    case Mark(_, _) =>
    case Free(id) => FreeKeepsAtMost(s, m, id);
    case Add(e, max, maxFreq) => PushKeepsAtMost(s, m, e, 1, |Inserted(s.evs, e, max, maxFreq)|);
    case Append(e, _) => PushKeepsAtMost(s, m, e, 1, |Step(s, op).evs|);
    case AppendAll(e, copies) =>
      if copies <= m {
        PushKeepsAtMost(s, m, e, copies, |s.evs| + copies);
      } else {
        var r := Step(s, op);
        assert r.ids[0] == s.next && r.ids[m] == s.next;
      }
  }

  lemma PushKeepsAtMost(s: Past, m: nat, e: Ev, n: nat, keep: nat)
    requires Valid(s) && AtMost(s, m) && n <= m && keep <= |s.evs| + n
    ensures AtMost(Pushed(s, e, n, keep), m)
  {
    var r := Pushed(s, e, n, keep);
    forall i, j | 0 <= i && i + m <= j < |r.ids| ensures r.ids[j] < r.ids[i] {
      assert r.ids[j] == s.ids[j - n];
      if i >= n {
        assert r.ids[i] == s.ids[i - n];
      }
    }
  }

  lemma FreeKeepsAtMost(s: Past, m: nat, id: nat)
    requires Valid(s) && AtMost(s, m)
    ensures AtMost(Freed(s, id), m)
  {
    var r := Freed(s, id);
    forall i, j | 0 <= i && i + m <= j < |r.ids| ensures r.ids[j] < r.ids[i] {
      var k := WasBefore(s, id, i);
      var l := WasBefore(s, id, j);
      hide Freed, Valid;
      assert l - k >= j - i;
    }
  }

  /** One event is enough for a rule of any frequency below its number of entries. */
  lemma OneEventFires(s: Past, e: Ev, copies: nat) returns (op: Op)
    requires Valid(s) && copies > 0
    ensures var t := Step(s, AppendAll(e, copies));
      && Fires(t, op) && op.w.frequency == copies - 1
      && forall i | 0 <= i < |Counted(t, op)| :: Counted(t, op)[i] == s.next
  {
    var t := Step(s, AppendAll(e, copies));
    var w := PlainWatch(e.matched + 1, copies - 1, 0 - e.time);
    op := Search(LastSids, w, e.attrs, 0);
    assert forall k | 0 <= k < copies :: t.evs[k] == e && t.ids[k] == s.next;
    PlainFinds(w, e.attrs, t.evs);
  }

  // ---------------------------------------------------------------------------------------------
  // Barriers

  /** Walking from the new end, a mark of at least `level` is met at the latest at the first event that
      arrived before `b`. */
  ghost predicate Barrier(s: Past, b: nat, level: int)
    requires Valid(s)
  {
    forall i | 0 <= i < |s.evs| && s.ids[i] < b :: Shielded(s.evs, level, i)
  }

  predicate Shielded(h: seq<Ev>, level: int, i: nat)
    requires i < |h|
  {
    exists k | 0 <= k <= i :: h[k].matched >= level
  }

  /** No other event carries such a mark as far as `i`. */
  predicate OnlyMark(h: seq<Ev>, ids: seq<nat>, level: int, i: nat, id: nat)
    requires i < |h| == |ids|
  {
    forall k | 0 <= k <= i && ids[k] != id :: h[k].matched < level
  }

  /** The two ways to lose a barrier: the event with the only mark in front of an older one is freed while the
      older one stays, or that mark is lowered from outside. */
  ghost predicate LosesBarrier(s: Past, b: nat, level: int, op: Op)
    requires Valid(s)
  {
    match op
    case Free(id) => exists i | 0 <= i < |s.evs| && s.ids[i] != id && s.ids[i] < b ::
      OnlyMark(s.evs, s.ids, level, i, id)
    case Mark(id, m) => m < level && exists i | 0 <= i < |s.evs| && s.ids[i] < b :: OnlyMark(s.evs, s.ids, level, i, id)
    case _ => false
  }

  ghost predicate KeepsBarrier(s: Past, b: nat, level: int, ops: seq<Op>)
    requires Valid(s)
    decreases |ops|
  {
    ops == [] || (!LosesBarrier(s, b, level, ops[0]) && KeepsBarrier(Step(s, ops[0]), b, level, ops[1..]))
  }

  /** A search never lowers the mark of an event of its own list. */
  lemma MarksNeverDecrease(s: Past, op: Op)
    requires Valid(s) && op.Search?
    ensures var r := Step(s, op); |r.evs| == |s.evs| && r.ids == s.ids
    ensures forall i | 0 <= i < |s.evs| :: s.evs[i].matched <= Step(s, op).evs[i].matched
  {
    var found := Found(op.scan, op.w, op.my, op.now, s.evs);
    if found.Some? {
      var k := found.value;
      assert !Stops(op.w, op.now, s.evs[k]);
      assert !Stops(op.w, op.now, s.evs[0]);
      hide Found, Stops;
      forall i | 0 <= i < |s.evs| ensures s.evs[i].matched <= Step(s, op).evs[i].matched {
        SameEvent(s, i, k);
        SameEvent(s, i, 0);
      }
    }
  }

  lemma SameEvent(s: Past, i: nat, k: nat)
    requires Valid(s) && i < |s.evs| && k < |s.evs|
    ensures s.ids[i] == s.ids[k] ==> s.evs[i] == s.evs[k]
  {
    assert i < k || k < i || i == k;
  }

  /** Firing raises a barrier behind everything that had arrived. */
  lemma FiringRaisesBarrier(s: Past, op: Op)
    requires Valid(s) && Fires(s, op)
    ensures Barrier(Step(s, op), s.next, op.w.level)
  {
    var r := Step(s, op);
    assert r.evs[0].matched >= op.w.level;
    forall i | 0 <= i < |r.evs| ensures Shielded(r.evs, op.w.level, i) {
    }
  }

  /** A step keeps a barrier exactly when it is not one that loses it. */
  lemma StepKeepsBarrier(s: Past, b: nat, level: int, op: Op)
    requires Valid(s) && b <= s.next && Barrier(s, b, level)
    ensures Barrier(Step(s, op), b, level) <==> !LosesBarrier(s, b, level, op)
  {
    match op
    case Search(_, _, _, _) =>
      MarksNeverDecrease(s, op);
      SameOrHigherMarks(s, b, level, Step(s, op));
    case Free(id) => FreeKeepsBarrier(s, b, level, id);
    case Mark(id, m) => MarkKeepsBarrier(s, b, level, id, m);
    case Add(e, _, _) => NewHeadKeepsBarrier(s, b, level, e, 1, Step(s, op));
    case Append(e, _) => NewHeadKeepsBarrier(s, b, level, e, 1, Step(s, op));
    case AppendAll(e, copies) => NewHeadKeepsBarrier(s, b, level, e, copies, Step(s, op));
  }

  lemma SameOrHigherMarks(s: Past, b: nat, level: int, r: Past)
    requires Valid(s) && Barrier(s, b, level) && Valid(r)
    requires |r.evs| == |s.evs| && r.ids == s.ids
    requires forall i | 0 <= i < |s.evs| :: s.evs[i].matched <= r.evs[i].matched
    ensures Barrier(r, b, level)
  {
    forall i | 0 <= i < |r.evs| && r.ids[i] < b ensures Shielded(r.evs, level, i) {
      assert Shielded(s.evs, level, i);
      var k :| 0 <= k <= i && s.evs[k].matched >= level;
      assert r.evs[k].matched >= level;
    }
  }

  lemma MarkKeepsBarrier(s: Past, b: nat, level: int, id: nat, m: int)
    requires Valid(s) && b <= s.next && Barrier(s, b, level)
    ensures Barrier(Step(s, Mark(id, m)), b, level) <==> !LosesBarrier(s, b, level, Mark(id, m))
  {
    var r := Step(s, Mark(id, m));
    forall i | 0 <= i < |s.evs|
      ensures Shielded(s.evs, level, i) ==>
        (Shielded(r.evs, level, i) <==> m >= level || !OnlyMark(s.evs, s.ids, level, i, id))
    {
      if Shielded(s.evs, level, i) { MarkShields(s.evs, s.ids, level, i, id, m); }
    }
  }

  lemma MarkShields(h: seq<Ev>, ids: seq<nat>, level: int, i: nat, id: nat, m: int)
    requires i < |h| == |ids| && Shielded(h, level, i)
    ensures Shielded(MarkedAt(h, ids, id, m), level, i) <==> m >= level || !OnlyMark(h, ids, level, i, id)
  {
    var r := MarkedAt(h, ids, id, m);
    if m >= level || !OnlyMark(h, ids, level, i, id) {
      if k :| 0 <= k <= i && ids[k] != id && h[k].matched >= level {
        assert r[k] == h[k];
      } else {
        var k :| 0 <= k <= i && h[k].matched >= level;
        assert r[k].matched == m;
      }
    } else {
      forall k | 0 <= k <= i ensures r[k].matched < level {
        assert ids[k] == id || r[k] == h[k];
      }
    }
  }

  lemma FreeKeepsBarrier(s: Past, b: nat, level: int, id: nat)
    requires Valid(s) && Barrier(s, b, level)
    ensures Barrier(Freed(s, id), b, level) <==> !LosesBarrier(s, b, level, Free(id))
  {
    if LosesBarrier(s, b, level, Free(id)) {
      var i :| 0 <= i < |s.evs| && s.ids[i] != id && s.ids[i] < b && OnlyMark(s.evs, s.ids, level, i, id);
      var j := StaysBehind(s, id, level, i);
    } else {
      FreeLeavesBarrier(s, b, level, id);
    }
  }

  lemma FreeLeavesBarrier(s: Past, b: nat, level: int, id: nat)
    requires Valid(s) && Barrier(s, b, level) && !LosesBarrier(s, b, level, Free(id))
    ensures Barrier(Freed(s, id), b, level)
  {
    var r := Freed(s, id);
    forall j | 0 <= j < |r.evs| && r.ids[j] < b
      ensures Shielded(r.evs, level, j)
    {
      var i := WasBefore(s, id, j);
      assert s.ids[i] < b && !OnlyMark(s.evs, s.ids, level, i, id);
      var k := StaysBehind(s, id, level, i);
    }
  }

  /** Where an entry that is still there was before. */
  lemma WasBefore(s: Past, id: nat, j: nat) returns (i: nat)
    requires Valid(s) && j < |Freed(s, id).evs|
    ensures i < |s.evs| && s.ids[i] != id && s.ids[i] == Freed(s, id).ids[j] && s.evs[i] == Freed(s, id).evs[j]
    ensures j == NowAt(s, id, i) && i == if j < Newer(s.ids, id + 1) then j else j + (|s.ids| - |Freed(s, id).ids|)
  {
    NewerOrder(s.ids, id);
    var a, c := Newer(s.ids, id + 1), Newer(s.ids, id);
    i := if j < a then j else j + (c - a);
    hide Descending, Newer, CutOut;
  }

  /** Where an entry is once an event is freed. */
  ghost function NowAt(s: Past, id: nat, i: nat): nat
    requires Valid(s) && i < |s.evs|
  {
    NewerOrder(s.ids, id);
    if i < Newer(s.ids, id + 1) then i
    else if i < Newer(s.ids, id) then 0
    else i - (Newer(s.ids, id) - Newer(s.ids, id + 1))
  }

  /** An entry of another event keeps its number, and other marks in front of it still count. */
  lemma StaysBehind(s: Past, id: nat, level: int, i: nat) returns (j: nat)
    requires Valid(s) && i < |s.evs| && s.ids[i] != id
    ensures j == NowAt(s, id, i)
    ensures var r := Freed(s, id);
      j < |r.evs| && r.ids[j] == s.ids[i] && (Shielded(r.evs, level, j) <==> !OnlyMark(s.evs, s.ids, level, i, id))
  {
    NewerOrder(s.ids, id);
    j := NowAt(s, id, i);
    FreeShields(s.evs, s.ids, level, i, id, Newer(s.ids, id + 1), Newer(s.ids, id), j);
  }

  lemma FreeShields(h: seq<Ev>, ids: seq<nat>, level: int, i: nat, id: nat, a: nat, c: nat, j: nat)
    requires i < |h| == |ids| && a <= c <= |h| && forall k | 0 <= k < |ids| :: ids[k] == id <==> a <= k < c
    requires ids[i] != id && j == if i < a then i else i - (c - a)
    ensures Shielded(CutOut(h, a, c), level, j) <==> !OnlyMark(h, ids, level, i, id)
  {
    var r := CutOut(h, a, c);
    if !OnlyMark(h, ids, level, i, id) {
      var k :| 0 <= k <= i && ids[k] != id && h[k].matched >= level;
      assert r[if k < a then k else k - (c - a)] == h[k];
    }
  }

  lemma NewHeadKeepsBarrier(s: Past, b: nat, level: int, e: Ev, n: nat, r: Past)
    requires Valid(s) && b <= s.next && Barrier(s, b, level)
    requires Valid(r) && r.evs <= Copies(e, n) + s.evs && r.ids <= Copies(s.next, n) + s.ids
    ensures Barrier(r, b, level)
  {
    forall i | 0 <= i < |r.evs| && r.ids[i] < b
      ensures Shielded(r.evs, level, i)
    {
      StartOfMore(Copies(s.next, n), s.ids, r.ids, i);
      hide Barrier;
      OldIsShielded(s, b, level, i - n);
      ShiftShields(Copies(e, n), s.evs, r.evs, level, i - n);
    }
  }

  lemma OldIsShielded(s: Past, b: nat, level: int, i: nat)
    requires Valid(s) && Barrier(s, b, level) && i < |s.evs| && s.ids[i] < b
    ensures Shielded(s.evs, level, i)
  {
  }

  lemma StartOfMore<T>(a: seq<T>, b: seq<T>, p: seq<T>, i: nat)
    requires p <= a + b && i < |p|
    ensures if i < |a| then p[i] == a[i] else i - |a| < |b| && p[i] == b[i - |a|]
  {
    assert p[i] == (a + b)[i];
  }

  lemma ShiftShields(a: seq<Ev>, b: seq<Ev>, p: seq<Ev>, level: int, i: nat)
    requires p <= a + b && i + |a| < |p| && i < |b| && Shielded(b, level, i)
    ensures Shielded(p, level, i + |a|)
  {
    var k :| 0 <= k <= i && b[k].matched >= level;
    StartOfMore(a, b, p, k + |a|);
  }

  lemma {:induction false} RunKeepsBarrier(s: Past, b: nat, level: int, ops: seq<Op>)
    requires Valid(s) && b <= s.next && Barrier(s, b, level) && KeepsBarrier(s, b, level, ops)
    ensures Barrier(Run(s, ops), b, level)
    decreases |ops|
  {
    if ops != [] {
      StepKeepsBarrier(s, b, level, ops[0]);
      RunKeepsBarrier(Step(s, ops[0]), b, level, ops[1..]);
    }
  }

  /** A run that does not keep the barrier is without it after some of its steps. */
  lemma {:induction false} RunLosesBarrier(s: Past, b: nat, level: int, ops: seq<Op>) returns (n: nat)
    requires Valid(s) && b <= s.next && Barrier(s, b, level) && !KeepsBarrier(s, b, level, ops)
    ensures n <= |ops| && !Barrier(Run(s, ops[..n]), b, level)
    decreases |ops|
  {
    hide Barrier, LosesBarrier, Step;
    StepKeepsBarrier(s, b, level, ops[0]);
    if LosesBarrier(s, b, level, ops[0]) {
      n := 1;
      assert ops[..1][1..] == [];
    } else {
      var m := RunLosesBarrier(Step(s, ops[0]), b, level, ops[1..]);
      n := m + 1;
      assert ops[..n][1..] == ops[1..][..m];
    }
  }

  /** Nothing at or behind a barrier is evidence for a rule of at most its level, also when marks are raised
      from outside while the walk reads them: `seen` are the events as it read them. */
  lemma BarrierHidesThePast(s: Past, b: nat, level: int, w: Watch, now: int, seen: seq<Ev>, k: nat)
    requires Valid(s) && Barrier(s, b, level) && w.level <= level
    requires |seen| == |s.evs| && forall i | 0 <= i < |seen| :: s.evs[i].matched <= seen[i].matched
    requires k < WalkLength(w, now, seen)
    ensures b <= s.ids[k]
  {
    assert forall i | 0 <= i <= k :: !Stops(w, now, seen[i]);
    assert !Shielded(s.evs, level, k);
  }

  lemma FiringIsBehindBarrier(s: Past, b: nat, level: int, op: Op)
    requires Valid(s) && Barrier(s, b, level)
    requires Fires(s, op) && op.w.level <= level
    ensures forall i | 0 <= i < |Counted(s, op)| :: b <= Counted(s, op)[i]
  {
    forall k | 0 <= k < WalkLength(op.w, op.now, s.evs) ensures b <= s.ids[k] {
      BarrierHidesThePast(s, b, level, op.w, op.now, s.evs, k);
    }
  }

  /** And without the barrier there is a rule of that level that fires on the past. */
  lemma LostBarrierShowsThePast(s: Past, b: nat, level: int) returns (op: Op, i: nat)
    requires Valid(s) && !Barrier(s, b, level)
    ensures Fires(s, op) && op.w.level == level && i < |Counted(s, op)| && Counted(s, op)[i] < b
  {
    i :| 0 <= i < |s.evs| && s.ids[i] < b && !Shielded(s.evs, level, i);
    var w, my := PlainWatch(level, i, Oldest(s.evs)), s.evs[0].attrs;
    op := Search(LastSids, w, my, 0);
    PlainFinds(w, my, s.evs);
    assert Counted(s, op)[i] == s.ids[i];
  }

  // ---------------------------------------------------------------------------------------------
  // Firings and evidence

  /**
   Frequency firings never reuse evidence. Once a rule fires, in any run in which the barrier it
   leaves is kept, a later firing of any rule of at most its level counts only events that arrived
   after the first firing. If no event has more than `m` entries, at least frequency / m + 1 events
   arrived in between: frequency + 1 when each event has one.
   */
  lemma FiringsNeverShareEvidence(s: Past, first: Op, ops: seq<Op>, second: Op, m: nat)
    requires Valid(s) && Fires(s, first)
    requires KeepsBarrier(Step(s, first), s.next, first.w.level, ops)
    requires Fires(Run(Step(s, first), ops), second)
    requires second.w.level <= first.w.level
    requires m > 0 && AtMost(Run(Step(s, first), ops), m)
    ensures var t := Run(Step(s, first), ops);
      && (forall i | 0 <= i < |Counted(t, second)| :: s.next <= Counted(t, second)[i])
      && (forall i, j | 0 <= i < |Counted(s, first)| && 0 <= j < |Counted(t, second)| ::
            Counted(s, first)[i] != Counted(t, second)[j])
      && t.next - s.next >= second.w.frequency / m + 1
  {
    var s1 := Step(s, first);
    FiringRaisesBarrier(s, first);
    RunKeepsBarrier(s1, s.next, first.w.level, ops);
    var t := Run(s1, ops);
    FiringIsBehindBarrier(t, s.next, first.w.level, second);
    CountedFromList(t, second, m);
    CountedIsKnown(s, first);
    hide *;
    ArrivedBetween(Counted(t, second), s.next, t.next, m, second.w.frequency);
  }

  /** So many numbers from `b` up to `next`, each at most `m` times, need that much room. */
  lemma ArrivedBetween(c: seq<nat>, b: nat, next: nat, m: nat, frequency: nat)
    requires |c| == frequency + 1 && m > 0 && forall i | 0 <= i < |c| :: b <= c[i] < next
    requires forall i, j | 0 <= i && i + m <= j < |c| :: c[j] < c[i]
    ensures next - b >= frequency / m + 1
  {
    var k := frequency / m;
    assert k * m <= frequency;
    FarApart(c, m, k);
    assert c[0] < next && b <= c[k * m];
  }

  lemma {:induction false} FarApart(c: seq<nat>, m: nat, k: nat)
    requires m > 0 && k * m < |c|
    requires forall i, j | 0 <= i && i + m <= j < |c| :: c[j] < c[i]
    ensures c[0] - c[k * m] >= k
  {
    if k > 0 {
      assert k * m == (k - 1) * m + m;
      FarApart(c, m, k - 1);
    }
  }

  /** The condition is exact: a run that does not keep the barrier reaches a state in which some rule of
      that level fires on an event that had arrived before the first firing. */
  lemma OtherRunsReachThePast(s: Past, first: Op, ops: seq<Op>) returns (n: nat, second: Op, i: nat)
    requires Valid(s) && Fires(s, first)
    requires !KeepsBarrier(Step(s, first), s.next, first.w.level, ops)
    ensures n <= |ops|
    ensures var t := Run(Step(s, first), ops[..n]);
      && Fires(t, second) && second.w.level == first.w.level
      && i < |Counted(t, second)| && Counted(t, second)[i] < s.next
  {
    FiringRaisesBarrier(s, first);
    hide Barrier, KeepsBarrier, Counted, Step;
    n := RunLosesBarrier(Step(s, first), s.next, first.w.level, ops);
    second, i := LostBarrierShowsThePast(Run(Step(s, first), ops[..n]), s.next, first.w.level);
  }

  /** The history of one match shard: events arrive, searches over it mark, and so do searches over other lists. */
  predicate ShardRun(ops: seq<Op>) {
    forall i | 0 <= i < |ops| :: ops[i].Add? || ops[i].Search? || ops[i].Mark?
  }

  /** No mark is set from outside below what the event carries already. */
  ghost predicate NeverLowered(s: Past, ops: seq<Op>)
    requires Valid(s)
    decreases |ops|
  {
    ops == [] || (NotLowered(s, ops[0]) && NeverLowered(Step(s, ops[0]), ops[1..]))
  }

  ghost predicate NotLowered(s: Past, op: Op)
    requires Valid(s)
  {
    op.Mark? ==> forall k | 0 <= k < |s.ids| && s.ids[k] == op.id :: s.evs[k].matched <= op.level
  }

  lemma {:induction false} ShardRunKeepsBarrier(s: Past, b: nat, level: int, ops: seq<Op>)
    requires Valid(s) && b <= s.next && Barrier(s, b, level) && ShardRun(ops) && NeverLowered(s, ops)
    ensures KeepsBarrier(s, b, level, ops)
    decreases |ops|
  {
    if ops != [] {
      if ops[0].Mark? {
        SameOrHigherMarks(s, b, level, Step(s, ops[0]));
      }
      StepKeepsBarrier(s, b, level, ops[0]);
      ShardRunKeepsBarrier(Step(s, ops[0]), b, level, ops[1..]);
    }
  }

  lemma {:induction false} ShardRunKeepsAtMost(s: Past, ops: seq<Op>)
    requires Valid(s) && AtMost(s, 1) && ShardRun(ops)
    ensures AtMost(Run(s, ops), 1)
    decreases |ops|
  {
    if ops != [] {
      StepKeepsAtMost(s, 1, ops[0]);
      ShardRunKeepsAtMost(Step(s, ops[0]), ops[1..]);
    }
  }

  /** On the history of one shard, eviction never brings evidence back: as long as no mark is lowered through
      another list, firings share no evidence, and at least frequency + 1 events arrive in between. */
  lemma ShardFiringsNeverShareEvidence(s: Past, first: Op, ops: seq<Op>, second: Op)
    requires Valid(s) && AtMost(s, 1) && Fires(s, first) && ShardRun(ops) && NeverLowered(Step(s, first), ops)
    requires Fires(Run(Step(s, first), ops), second) && second.w.level <= first.w.level
    ensures forall i | 0 <= i < |Counted(Run(Step(s, first), ops), second)| ::
      s.next <= Counted(Run(Step(s, first), ops), second)[i]
    ensures Run(Step(s, first), ops).next - s.next >= second.w.frequency + 1
  {
    FiringRaisesBarrier(s, first);
    StepKeepsAtMost(s, 1, first);
    ShardRunKeepsBarrier(Step(s, first), s.next, first.w.level, ops);
    ShardRunKeepsAtMost(Step(s, first), ops);
    FiringsNeverShareEvidence(s, first, ops, second, 1);
  }

  // ---------------------------------------------------------------------------------------------
  // Two runs that lose a barrier

  lemma LosesMarkedHead(t: Past, b: nat, level: int)
    requires Valid(t) && t.next <= b && |t.evs| >= 2 && t.ids[1] < t.ids[0]
    requires t.evs[0].matched >= level > t.evs[1].matched
    ensures LosesBarrier(t, b, level, Free(t.ids[0]))
  {
    assert OnlyMark(t.evs, t.ids, level, 1, t.ids[0]);
  }

  /** The newest event is freed, then two more arrive. */
  ghost function HeadFreedThenTwoArrive(s: Past, e: Ev): (r: Past)
    requires Valid(s) && s.ids != []
    ensures Valid(r)
  {
    Step(Step(Step(s, Free(s.ids[0])), Append(e, 16)), Append(e, 16))
  }

  /** On a list shared by several shards a barrier can be lost by freeing its event while older ones remain:
      one rule of frequency 2 counts an event twice, with two new events in between. */
  lemma LostBarrierReusesEvidence(a: Attrs) returns (s: Past, e: Ev, search: Op)
    ensures Valid(s) && Fires(s, search) && search.w.frequency == 2
    ensures s.ids != [] && LosesBarrier(Step(s, search), s.next, search.w.level, Free(s.ids[0]))
    ensures var t := HeadFreedThenTwoArrive(Step(s, search), e);
      Fires(t, search) && Counted(s, search)[1] == Counted(t, search)[2]
  {
    e := Ev(0, 0, a, "");
    s := Past([e, e, e], [2, 1, 0], 3);
    search := Search(LastSids, PlainWatch(5, 2, 60), a, 0);
    assert |s.evs| == 3 && s.evs[0] == s.evs[1] == s.evs[2] == e && s.ids[2] < s.ids[1] < s.ids[0];
    ThreeFire(s, e);
    FiresAgain(s, search, e);
  }

  lemma FiresAgain(s: Past, search: Op, e: Ev)
    requires Valid(s) && |s.evs| == 3 && s.evs[0] == s.evs[1] == s.evs[2] == e && s.ids[2] < s.ids[1] < s.ids[0]
    requires e.time == 0 && e.matched == 0 && search == Search(LastSids, PlainWatch(5, 2, 60), e.attrs, 0)
    requires Found(LastSids, PlainWatch(5, 2, 60), e.attrs, 0, s.evs) == Some(2) && Fires(s, search)
    requires Counted(s, search)[1] == s.ids[1]
    ensures Step(s, search).ids == s.ids && LosesBarrier(Step(s, search), s.next, 5, Free(s.ids[0]))
    ensures var t := HeadFreedThenTwoArrive(Step(s, search), e);
      Fires(t, search) && Counted(s, search)[1] == Counted(t, search)[2]
  {
    MiddleStays(s, search);
    hide Step, Counted, Fires, LosesBarrier, Found;
    var t := Step(s, search);
    LosesMarkedHead(t, s.next, 5);
    AfterTwoArrived(t, e);
    ThreeFire(HeadFreedThenTwoArrive(t, e), e);
  }

  /** The search marks the head and the event it found, not the one between them. */
  lemma MiddleStays(s: Past, search: Op)
    requires Valid(s) && |s.evs| == 3 && s.ids[2] < s.ids[1] < s.ids[0] && search.Search?
    requires Found(search.scan, search.w, search.my, search.now, s.evs) == Some(2)
    ensures var t := Step(s, search);
      |t.evs| == 3 && t.evs[1] == s.evs[1] && t.evs[0].matched == search.w.level && t.ids == s.ids && t.next == s.next
  {
  }

  lemma AfterTwoArrived(t: Past, e: Ev)
    requires Valid(t) && 2 <= |t.evs| < 15 && t.ids[1] < t.ids[0]
    ensures var u := HeadFreedThenTwoArrive(t, e);
      |u.evs| == |t.evs| + 1 && u.evs[0] == u.evs[1] == e && u.evs[2] == t.evs[1] && u.ids[2] == t.ids[1]
  {
    FreeHead(t);
    var a := Step(t, Free(t.ids[0]));
    AppendOne(a, e);
    AppendOne(Step(a, Append(e, 16)), e);
    hide *;
    assert t.evs[1..][0] == t.evs[1] && t.ids[1..][0] == t.ids[1];
  }

  /** Three unmarked events fire a rule of frequency 2. */
  lemma ThreeFire(s: Past, e: Ev)
    requires Valid(s) && |s.evs| >= 3 && s.evs[0] == s.evs[1] == s.evs[2] == e && e.time == 0 && e.matched == 0
    ensures var search := Search(LastSids, PlainWatch(5, 2, 60), e.attrs, 0);
      Found(LastSids, PlainWatch(5, 2, 60), e.attrs, 0, s.evs) == Some(2) && Fires(s, search)
      && Counted(s, search)[1] == s.ids[1] && Counted(s, search)[2] == s.ids[2]
  {
    PlainFinds(PlainWatch(5, 2, 60), e.attrs, s.evs);
  }

  lemma FreeHead(s: Past)
    requires Valid(s) && |s.ids| > 1 && s.ids[1] < s.ids[0]
    ensures Step(s, Free(s.ids[0])) == Past(s.evs[1..], s.ids[1..], s.next)
  {
    NewerOrder(s.ids, s.ids[0]);
    var c := Newer(s.ids, s.ids[0]);
    assert Newer(s.ids, s.ids[0] + 1) == 0 && c == 1;
    assert CutOut(s.evs, 0, 1) == s.evs[1..] && CutOut(s.ids, 0, 1) == s.ids[1..];
  }

  lemma AppendOne(s: Past, e: Ev)
    requires Valid(s) && |s.evs| < 16
    ensures Step(s, Append(e, 16)) == Past([e] + s.evs, [s.next] + s.ids, s.next + 1)
  {
    assert Copies(e, 1) == [e] && Copies(s.next, 1) == [s.next];
  }

  /** A mark lowered through another list: the rule that set the higher one counts the event at the head again,
      with no event in between. */
  lemma LoweredMarkReusesEvidence(t: Past, high: int, low: int) returns (search: Op)
    requires Valid(t) && t.evs != [] && t.evs[0].matched < low < high
    ensures Fires(t, search) && search.w.level == high
    ensures LosesBarrier(Step(t, search), t.next, high, Mark(t.ids[0], low))
    ensures var u := Step(Step(t, search), Mark(t.ids[0], low));
      Fires(u, search) && Counted(u, search) == Counted(t, search) == [t.ids[0]]
  {
    search := Search(LastSids, PlainWatch(high, 0, 0 - t.evs[0].time), t.evs[0].attrs, 0);
    HeadFires(t, search);
    HeadIsMarked(t, search);
    hide Step, LosesBarrier, Found, Fires, Counted, Valid;
    HeadLowered(Step(t, search), high, low);
    HeadFires(Step(Step(t, search), Mark(t.ids[0], low)), search);
  }

  lemma HeadIsMarked(t: Past, search: Op)
    requires Valid(t) && t.evs != [] && search.Search?
    requires Found(search.scan, search.w, search.my, search.now, t.evs) == Some(0)
    ensures var r := Step(t, search);
      r.ids == t.ids && r.next == t.next && r.evs != [] && r.evs[0] == t.evs[0].(matched := search.w.level)
  {
  }

  lemma HeadLowered(r: Past, high: int, low: int)
    requires Valid(r) && r.evs != [] && low < high
    ensures LosesBarrier(r, r.next, high, Mark(r.ids[0], low))
    ensures var u := Step(r, Mark(r.ids[0], low));
      u.ids == r.ids && u.evs != [] && u.evs[0] == r.evs[0].(matched := low)
  {
    assert OnlyMark(r.evs, r.ids, high, 0, r.ids[0]);
  }

  /** A rule of frequency 0 fires on a young head of lower mark. */
  lemma HeadFires(s: Past, search: Op)
    requires Valid(s) && s.evs != [] && search.Search? && search.scan == LastSids && search.now == 0
    requires search.w == PlainWatch(search.w.level, 0, 0 - s.evs[0].time) && s.evs[0].matched < search.w.level
    ensures Found(LastSids, search.w, search.my, 0, s.evs) == Some(0)
    ensures Fires(s, search) && Counted(s, search) == [s.ids[0]]
  {
    PlainFinds(search.w, search.my, s.evs);
    assert Counted(s, search)[0] == s.ids[0];
  }
}
