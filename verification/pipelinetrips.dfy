/** The trips of the pipeline: what a thread does with one item from the moment it looks for it, and the whole way of a
    message from the socket into a history. */
module PipelineTrips {
  import opened Events
  import opened Pipeline
  import opened PipelineRuns

  // -------------------------------------------------------------------------------------------
  // One thread at a time

  /** Only the thread `t`, the items and the counters have changed. */
  ghost predicate Only(s: State, r: State, t: nat, phase: Phase, items: map<Place, seq<Id>>, n: Counters)
    requires t < |s.threads|
  {
    && r.threads == s.threads[t := Thread(s.threads[t].role, phase)]
    && r.items == items && r.n == n && r.shards == s.shards && r.size == s.size
    && r.closed == s.closed && r.shuttingDown == s.shuttingDown && r.stage == s.stage
  }

  /** What a step of a thread does: the item it moves, the phase it comes to and the counters. */
  ghost predicate Does(s: State, a: Action, x: Transfer, phase: Phase, n: Counters)
    requires Inv(s)
  {
    && ByThread(a) && Enabled(s, a) && a.t < |s.threads|
    && TransferOf(s, a) == x && PhaseAfter(s, a) == phase && CountersAfter(s, a) == n
  }

  lemma Stepped(s: State, a: Action, x: Transfer, phase: Phase, n: Counters)
    requires Inv(s) && Does(s, a, x, phase, n)
    ensures ByThread(a) && a.t < |s.threads| && Enabled(s, a) && Possible(s.items, x) && Inv(Step(s, a))
    ensures Only(s, Step(s, a), a.t, phase, ItemsAfter(s.items, |s.at|, x), n)
  {
    hide Shaped, Owned, Staged, Balanced, Enabled, ItemsAfter, AtAfter, CountersAfter, PhaseAfter, TransferOf;
    StepInv(s, a);
    TransferIsPossible(s, a);
  }

  /** A run that ends in a state. */
  ghost predicate Leads(s: State, actions: seq<Action>, r: State)
    requires Inv(s)
  {
    Inv(r) && CanRun(s, actions) && After(s, actions) == r
  }

  lemma LeadsOn(s: State, done: seq<Action>, r: State, a: Action)
    requires Inv(s) && Leads(s, done, r) && Enabled(r, a)
    ensures Leads(s, done + [a], Step(r, a))
  {
    hide Shaped, Owned, Staged, Balanced, Enabled, Step;
    StepInv(r, a);
    RunsOn(s, done, a);
  }

  lemma LeadsFurther(s: State, a: seq<Action>, r: State, b: seq<Action>, u: State)
    requires Inv(s) && Leads(s, a, r) && Leads(r, b, u)
    ensures Leads(s, a + b, u)
  {
    hide Shaped, Owned, Staged, Balanced, Enabled, Step;
    RunsFollow(s, a, b);
  }

  lemma LeadsThrice(s: State, a: Action, b: Action, c: Action) returns (r: State)
    requires Inv(s) && Enabled(s, a) && Inv(Step(s, a)) && Enabled(Step(s, a), b) && Inv(Step(Step(s, a), b))
    requires Enabled(Step(Step(s, a), b), c)
    ensures r == Step(Step(Step(s, a), b), c) && Leads(s, [a, b, c], r)
  {
    hide Shaped, Owned, Staged, Balanced, Enabled, Step;
    OneRuns(s, a);
    LeadsOn(s, [a], Step(s, a), b);
    LeadsOn(s, [a] + [b], Step(Step(s, a), b), c);
    assert [a] + [b] + [c] == [a, b, c];
    r := Step(Step(Step(s, a), b), c);
  }

  // -------------------------------------------------------------------------------------------
  // Items that pass through a hand

  /** The first item of one place goes to another, through an empty hand. */
  function Passed(items: map<Place, seq<Id>>, from: Place, to: Place): (r: map<Place, seq<Id>>)
    requires from in items && to in items && items[from] != [] && from != to
  {
    items[from := items[from][1..]][to := items[to] + [items[from][0]]]
  }

  lemma ThroughHand(items: map<Place, seq<Id>>, next: nat, from: Place, hand: Place, to: Place)
    requires from in items && to in items && hand in items && from != to && hand != from && hand != to
    requires items[from] != [] && items[hand] == []
    ensures var x, y := Moves(from, 0, hand, false), Moves(hand, 0, to, false);
      && Possible(items, x) && Possible(ItemsAfter(items, next, x), y)
      && ItemsAfter(ItemsAfter(items, next, x), next, y) == Passed(items, from, to)
  {
    var x := items[from][0];
    var r := ItemsAfter(items, next, Moves(from, 0, hand, false));
    assert Without(items[from], 0) == items[from][1..];
    assert r[hand] == [x];
    assert Without(r[hand], 0) == [];
  }

  /** A thread is at the top of its loop, its input is not empty and shutdown was not requested. */
  ghost predicate HasInput(s: State, t: nat) {
    && Inv(s) && !s.shuttingDown && t < |s.threads| && s.threads[t].phase == Top && !s.threads[t].role.Recv?
    && Queue(Input(s, s.threads[t].role)) in s.items && s.items[Queue(Input(s, s.threads[t].role))] != []
  }

  lemma Looks(s: State, t: nat)
    requires Inv(s) && !s.shuttingDown && t < |s.threads| && s.threads[t].phase == Top
    ensures Does(s, Look(t), Nothing, Ready, s.n)
    ensures Hand(t) in s.items && s.items[Hand(t)] == []
  {
    hide Owned, Staged, Balanced;
    assert Fits(s.threads[t].role, s.threads[t].phase, |s.items[Hand(t)]|);
  }

  lemma Pops(s: State, t: nat)
    requires Inv(s) && t < |s.threads| && s.threads[t].phase == Ready && !s.threads[t].role.Recv?
    requires Queue(Input(s, s.threads[t].role)) in s.items && s.items[Queue(Input(s, s.threads[t].role))] != []
    ensures Does(s, Pop(t), Moves(Queue(Input(s, s.threads[t].role)), 0, Hand(t), false), Has, s.n)
  {
    hide Owned, Staged, Balanced, Fits;
  }

  /** A thread takes its next item: it looks at the flag, waits and pops. */
  lemma Takes(s: State, t: nat) returns (r: State)
    requires HasInput(s, t)
    ensures Hand(t) in s.items && s.items[Hand(t)] == []
    ensures var x := Moves(Queue(Input(s, s.threads[t].role)), 0, Hand(t), false);
      && Leads(s, [Look(t), Pop(t)], r) && Possible(s.items, x)
      && Only(s, r, t, Has, ItemsAfter(s.items, |s.at|, x), s.n)
  {
    hide Shaped, Owned, Staged, Balanced, Enabled, Step, ItemsAfter, TransferOf, PhaseAfter, CountersAfter;
    Looks(s, t);
    Stepped(s, Look(t), Nothing, Ready, s.n);
    var u := Step(s, Look(t));
    SameItems(s.items, |s.at|);
    NumbersAside(s.items, |u.at|, |s.at|, Moves(Queue(Input(s, s.threads[t].role)), 0, Hand(t), false));
    Pops(u, t);
    Stepped(u, Pop(t), Moves(Queue(Input(s, s.threads[t].role)), 0, Hand(t), false), Has, s.n);
    OneRuns(s, Look(t));
    LeadsOn(s, [Look(t)], u, Pop(t));
    assert [Look(t)] + [Pop(t)] == [Look(t), Pop(t)];
    r := Step(u, Pop(t));
  }

  lemma SameItems(items: map<Place, seq<Id>>, next: nat)
    ensures Possible(items, Nothing) && ItemsAfter(items, next, Nothing) == items
  {
  }

  lemma NumbersAside(items: map<Place, seq<Id>>, next: nat, other: nat, x: Transfer)
    requires Possible(items, x) && !x.Makes?
    ensures ItemsAfter(items, next, x) == ItemsAfter(items, other, x)
  {
  }

  // -------------------------------------------------------------------------------------------
  // Trips that end outside the histories

  /** The steps with which a thread hands on or frees the item it has just taken. */
  predicate Ends(role: Role, a: Action) {
    match a
    case Push(_, q) => role.Demux? || role.Decode?
    case Write(_) => role.Writer?
    case Reject(_) => role.Decode?
    case _ => false
  }

  /** Where that item goes. */
  function Goal(a: Action): Place {
    if a.Push? then Queue(a.q) else Gone
  }

  lemma Parts(s: State, a: Action)
    requires Inv(s) && ByThread(a) && a.t < |s.threads| && s.threads[a.t].phase == Has && Ends(s.threads[a.t].role, a)
    requires a.Push? ==> Feeds(s, s.threads[a.t].role, a.q) && a.q < AllQueues(s) && Accepts(s, a.q)
    ensures Does(s, a, Moves(Hand(a.t), 0, Goal(a), false), Top,
                 if a.Reject? then s.n.(rejected := s.n.rejected + 1) else s.n)
  {
    hide Owned, Staged, Balanced;
    assert Fits(s.threads[a.t].role, s.threads[a.t].phase, |s.items[Hand(a.t)]|);
  }

  /** A demultiplexer or decoder passes the first item of its queue to the end of another, a decoder may reject it, a
      writer writes it; then the thread is where it was, and nothing else has changed. */
  lemma TakenIsHandedOn(s: State, a: Action) returns (r: State)
    requires ByThread(a) && HasInput(s, a.t) && Ends(s.threads[a.t].role, a)
    requires a.Push? ==> Feeds(s, s.threads[a.t].role, a.q) && a.q < AllQueues(s) && Accepts(s, a.q)
    ensures Leads(s, [Look(a.t), Pop(a.t), a], r)
    ensures var q := Queue(Input(s, s.threads[a.t].role));
      && Goal(a) in s.items && Goal(a) != q
      && Only(s, r, a.t, Top, Passed(s.items, q, Goal(a)),
              if a.Reject? then s.n.(rejected := s.n.rejected + 1) else s.n)
  {
    hide Shaped, Owned, Staged, Balanced, Enabled, Step, ItemsAfter, TransferOf, PhaseAfter, CountersAfter, Feeds,
      Accepts, Ends, Goal, Input, Passed;
    var q := Queue(Input(s, s.threads[a.t].role));
    GoalIsThere(s, a);
    var u := Takes(s, a.t);
    StillAccepts(s, u, a);
    ThroughHand(s.items, |s.at|, q, Hand(a.t), Goal(a));
    Parts(u, a);
    var n := if a.Reject? then s.n.(rejected := s.n.rejected + 1) else s.n;
    Stepped(u, a, Moves(Hand(a.t), 0, Goal(a), false), Top, n);
    NumbersAside(u.items, |u.at|, |s.at|, Moves(Hand(a.t), 0, Goal(a), false));
    LeadsOn(s, [Look(a.t), Pop(a.t)], u, a);
    assert [Look(a.t), Pop(a.t)] + [a] == [Look(a.t), Pop(a.t), a];
    r := Step(u, a);
  }

  lemma GoalIsThere(s: State, a: Action)
    requires ByThread(a) && HasInput(s, a.t) && Ends(s.threads[a.t].role, a)
    requires a.Push? ==> Feeds(s, s.threads[a.t].role, a.q) && a.q < AllQueues(s) && Accepts(s, a.q)
    ensures Goal(a) in s.items && Goal(a) != Queue(Input(s, s.threads[a.t].role)) && !Goal(a).Hand?
  {
    hide Owned, Staged, Balanced, Fits;
    assert RoleOk(s, s.threads[a.t].role);
  }

  /** Taking an item makes no other queue longer. */
  lemma StillAccepts(s: State, r: State, a: Action)
    requires ByThread(a) && HasInput(s, a.t) && Ends(s.threads[a.t].role, a)
    requires a.Push? ==> Feeds(s, s.threads[a.t].role, a.q) && a.q < AllQueues(s) && Accepts(s, a.q)
    requires var x := Moves(Queue(Input(s, s.threads[a.t].role)), 0, Hand(a.t), false);
      Inv(r) && Possible(s.items, x) && Only(s, r, a.t, Has, ItemsAfter(s.items, |s.at|, x), s.n)
    ensures a.t < |r.threads| && r.threads[a.t] == Thread(s.threads[a.t].role, Has)
    ensures a.Push? ==> Feeds(r, r.threads[a.t].role, a.q) && a.q < AllQueues(r) && Accepts(r, a.q)
  {
    hide Owned, Staged, Balanced, Fits;
    GoalIsThere(s, a);
  }

  // -------------------------------------------------------------------------------------------
  // An event enters a history

  function Times(a: Action, n: nat): seq<Action> {
    if n == 0 then [] else [a] + Times(a, n - 1)
  }

  function Backwards(ids: seq<Id>): (r: seq<Id>)
    ensures |r| == |ids|
  {
    if ids == [] then [] else Backwards(ids[1..]) + [ids[0]]
  }

  lemma {:induction false} LastFirst(ids: seq<Id>)
    requires ids != []
    ensures Backwards(ids) == [ids[|ids| - 1]] + Backwards(ids[..|ids| - 1])
  {
    if |ids| > 1 {
      LastFirst(ids[1..]);
      assert ids[1..][..|ids| - 2] == ids[..|ids| - 1][1..];
    }
  }

  lemma {:induction false} TwiceBackwards(ids: seq<Id>)
    ensures Backwards(Backwards(ids)) == ids
  {
    if ids != [] {
      var r := Backwards(ids[1..]) + [ids[0]];
      LastFirst(r);
      assert r[..|r| - 1] == Backwards(ids[1..]);
      TwiceBackwards(ids[1..]);
    }
  }

  /** A number of items goes, the last one first, from the end of a place to the end of another. */
  function LastMoved(items: map<Place, seq<Id>>, from: Place, to: Place, n: nat): (r: map<Place, seq<Id>>)
    requires from in items && to in items && from != to && n <= |items[from]|
    ensures r.Keys == items.Keys
    decreases n
  {
    if n == 0 then items
    else LastMoved(MovedItems(items, from, |items[from]| - 1, to, false), from, to, n - 1)
  }

  lemma {:induction false} LastMovedAre(items: map<Place, seq<Id>>, from: Place, to: Place, n: nat)
    requires from in items && to in items && from != to && n <= |items[from]|
    ensures var k := |items[from]| - n;
      LastMoved(items, from, to, n) == items[from := items[from][..k]][to := items[to] + Backwards(items[from][k..])]
    decreases n
  {
    hide MovedItems, Without;
    var ids, k := items[from], |items[from]| - n;
    if n > 0 {
      OneMoved(items, from, to);
      var u := MovedItems(items, from, |ids| - 1, to, false);
      LastMovedAre(u, from, to, n - 1);
      hide *;
      EndTurned(ids, items[to], k);
      SetTwice(items, from, to, ids[..|ids| - 1], items[to] + [ids[|ids| - 1]], ids[..k],
               items[to] + Backwards(ids[k..]));
    } else {
      assert ids[..k] == ids && Backwards(ids[k..]) == [];
      assert items[to] + Backwards(ids[k..]) == items[to];
      assert items[from := ids][to := items[to]] == items;
    }
  }

  lemma OneMoved(items: map<Place, seq<Id>>, from: Place, to: Place)
    requires from in items && to in items && from != to && items[from] != []
    ensures var ids := items[from];
      MovedItems(items, from, |ids| - 1, to, false)
        == items[from := ids[..|ids| - 1]][to := items[to] + [ids[|ids| - 1]]]
  {
    assert Without(items[from], |items[from]| - 1) == items[from][..|items[from]| - 1];
  }

  lemma EndTurned(ids: seq<Id>, to: seq<Id>, k: nat)
    requires k < |ids|
    ensures ids[..|ids| - 1][..k] == ids[..k]
    ensures to + [ids[|ids| - 1]] + Backwards(ids[..|ids| - 1][k..]) == to + Backwards(ids[k..])
  {
    LastFirst(ids[k..]);
    assert ids[k..][..|ids| - 1 - k] == ids[..|ids| - 1][k..];
  }

  lemma SetTwice(items: map<Place, seq<Id>>, from: Place, to: Place, a: seq<Id>, b: seq<Id>, c: seq<Id>, d: seq<Id>)
    requires from != to
    ensures items[from := a][to := b][from := c][to := d] == items[from := c][to := d]
  {
  }

  lemma Evicts(s: State, t: nat, j: nat)
    requires Inv(s) && t < |s.threads| && s.threads[t] == Thread(Match(j), Evicting)
    requires Shard(j) in s.items && |s.items[Shard(j)]| > 1
    ensures Does(s, Evict(t), Moves(Shard(j), |s.items[Shard(j)]| - 1, Hand(t), false), Evicting, s.n)
  {
    hide Owned, Staged, Balanced, Fits;
  }

  /** Eviction can go on until one event is left. */
  lemma {:induction false} Evictions(s: State, t: nat, j: nat, n: nat) returns (r: State)
    requires Inv(s) && t < |s.threads| && s.threads[t] == Thread(Match(j), Evicting)
    requires Shard(j) in s.items && Hand(t) in s.items && n < |s.items[Shard(j)]|
    ensures Leads(s, Times(Evict(t), n), r)
    ensures Only(s, r, t, Evicting, LastMoved(s.items, Shard(j), Hand(t), n), s.n)
    decreases n
  {
    hide Shaped, Owned, Staged, Balanced, Enabled, Step, TransferOf, PhaseAfter, CountersAfter, MovedItems;
    r := s;
    if n > 0 {
      Evicts(s, t, j);
      Stepped(s, Evict(t), Moves(Shard(j), |s.items[Shard(j)]| - 1, Hand(t), false), Evicting, s.n);
      var u := Step(s, Evict(t));
      OneShorter(s.items, Shard(j), Hand(t));
      r := Evictions(u, t, j, n - 1);
      OneRuns(s, Evict(t));
      LeadsFurther(s, [Evict(t)], u, Times(Evict(t), n - 1), r);
    }
  }

  lemma OneShorter(items: map<Place, seq<Id>>, from: Place, to: Place)
    requires from in items && to in items && from != to && items[from] != []
    ensures |MovedItems(items, from, |items[from]| - 1, to, false)[from]| == |items[from]| - 1
  {
  }

  lemma FreesVictim(s: State, t: nat)
    requires Inv(s) && t < |s.threads| && s.threads[t].phase == Freeing
    requires Hand(t) in s.items && s.items[Hand(t)] != [] && Gone in s.items
    ensures Does(s, FreeVictim(t), Moves(Hand(t), |s.items[Hand(t)]| - 1, Gone, false), Freeing, s.n)
  {
    hide Owned, Staged, Balanced, Fits;
  }

  /** All that was evicted can be freed. */
  lemma {:induction false} FreesAll(s: State, t: nat, n: nat) returns (r: State)
    requires Inv(s) && t < |s.threads| && s.threads[t].phase == Freeing
    requires Hand(t) in s.items && Gone in s.items && n == |s.items[Hand(t)]|
    ensures Leads(s, Times(FreeVictim(t), n), r)
    ensures Only(s, r, t, Freeing, LastMoved(s.items, Hand(t), Gone, n), s.n)
    decreases n
  {
    hide Shaped, Owned, Staged, Balanced, Enabled, Step, TransferOf, PhaseAfter, CountersAfter, MovedItems;
    r := s;
    if n > 0 {
      FreesVictim(s, t);
      Stepped(s, FreeVictim(t), Moves(Hand(t), |s.items[Hand(t)]| - 1, Gone, false), Freeing, s.n);
      var u := Step(s, FreeVictim(t));
      OneShorter(s.items, Hand(t), Gone);
      r := FreesAll(u, t, n - 1);
      OneRuns(s, FreeVictim(t));
      LeadsFurther(s, [FreeVictim(t)], u, Times(FreeVictim(t), n - 1), r);
    }
  }

  lemma Registers(s: State, t: nat, j: nat)
    requires Inv(s) && t < |s.threads| && s.threads[t] == Thread(Match(j), Has)
    ensures Does(s, Register(t), Moves(Hand(t), 0, Shard(j), true), Evicting, s.n)
  {
    hide Owned, Staged, Balanced;
    assert Fits(s.threads[t].role, s.threads[t].phase, |s.items[Hand(t)]|);
  }

  lemma Stops(s: State, t: nat)
    requires Inv(s) && t < |s.threads| && s.threads[t].phase == Evicting
    ensures Does(s, StopEvicting(t), Nothing, Freeing, s.n)
  {
    hide Owned, Staged, Balanced, Fits;
  }

  lemma Counts(s: State, t: nat)
    requires Inv(s) && t < |s.threads| && s.threads[t].phase == Freeing
    requires Hand(t) in s.items && s.items[Hand(t)] == []
    ensures Does(s, CountProcessed(t), Nothing, Top, s.n.(processed := s.n.processed + 1))
  {
    hide Owned, Staged, Balanced, Fits;
  }

  /** What a match thread does to list an event: it takes it from its queue and registers it, evicts `n` old events,
      frees them, and counts the event. */
  function Listing(t: nat, n: nat): seq<Action> {
    Entering(t, n) + Releasing(t, n)
  }

  function Entering(t: nat, n: nat): seq<Action> {
    [Look(t), Pop(t)] + [Register(t)] + Times(Evict(t), n)
  }

  function Releasing(t: nat, n: nat): seq<Action> {
    [StopEvicting(t)] + Times(FreeVictim(t), n) + [CountProcessed(t)]
  }

  /** The first of the queue is the first of the history then, and the `n` oldest are freed. */
  function Listed(items: map<Place, seq<Id>>, q: Place, h: Place, n: nat): map<Place, seq<Id>>
    requires q in items && h in items && Gone in items && items[q] != [] && n <= |items[h]|
  {
    var k := |items[h]| - n;
    items[q := items[q][1..]][h := [items[q][0]] + items[h][..k]][Gone := items[Gone] + items[h][k..]]
  }

  /** The steps one after the other, on the items alone. */
  lemma ListedItems(items: map<Place, seq<Id>>, q: Place, hand: Place, h: Place, n: nat)
    requires q in items && hand in items && h in items && Gone in items && items[q] != [] && items[hand] == []
    requires q.Queue? && hand.Hand? && h.Shard? && n <= |items[h]|
    ensures var a := items[q := items[q][1..]][h := [items[q][0]] + items[h]];
      && n < |a[h]| && a[hand] == []
      && var b := LastMoved(a, h, hand, n);
      && |b[hand]| == n
      && LastMoved(b, hand, Gone, n) == Listed(items, q, h, n)
  {
    hide LastMoved, Backwards;
    var x, l, k := items[q][0], items[h], |items[h]| - n;
    var a := items[q := items[q][1..]][h := [x] + l];
    LastMovedAre(a, h, hand, n);
    var b := LastMoved(a, h, hand, n);
    assert ([x] + l)[..k + 1] == [x] + l[..k] && ([x] + l)[k + 1..] == l[k..];
    assert b[hand] == [] + Backwards(l[k..]) == Backwards(l[k..]);
    LastMovedAre(b, hand, Gone, n);
    TwiceBackwards(l[k..]);
    assert b[hand][0..] == b[hand] && b[hand][..0] == [];
  }

  lemma RegisteredItems(items: map<Place, seq<Id>>, next: nat, q: Place, hand: Place, h: Place)
    requires q in items && hand in items && h in items && items[q] != [] && items[hand] == []
    requires q.Queue? && hand.Hand? && h.Shard?
    ensures var x, y := Moves(q, 0, hand, false), Moves(hand, 0, h, true);
      && Possible(items, x) && Possible(ItemsAfter(items, next, x), y)
      && ItemsAfter(ItemsAfter(items, next, x), next, y)
        == items[q := items[q][1..]][h := [items[q][0]] + items[h]]
  {
    var r := ItemsAfter(items, next, Moves(q, 0, hand, false));
    assert Without(items[q], 0) == items[q][1..];
    assert r[hand] == [items[q][0]];
    assert Without(r[hand], 0) == [];
  }

  ghost predicate MatchHasInput(s: State, t: nat, j: nat) {
    HasInput(s, t) && s.threads[t].role == Match(j) && Shard(j) in s.items && Gone in s.items
  }

  /** The items once the event is registered. */
  ghost function Entered(s: State, t: nat, j: nat): (r: map<Place, seq<Id>>)
    requires MatchHasInput(s, t, j)
  {
    s.items[Queue(DecodeQueues() + j) := s.items[Queue(DecodeQueues() + j)][1..]]
           [Shard(j) := [s.items[Queue(DecodeQueues() + j)][0]] + s.items[Shard(j)]]
  }

  lemma Enters(s: State, t: nat, j: nat) returns (r: State)
    requires MatchHasInput(s, t, j)
    ensures Leads(s, [Look(t), Pop(t)] + [Register(t)], r) && Only(s, r, t, Evicting, Entered(s, t, j), s.n)
  {
    hide Shaped, Owned, Staged, Balanced, Enabled, Step, ItemsAfter, TransferOf, PhaseAfter, CountersAfter, Possible;
    var q, hand, h := Queue(Input(s, s.threads[t].role)), Hand(t), Shard(j);
    var u := Takes(s, t);
    RegisteredItems(s.items, |s.at|, q, hand, h);
    Registers(u, t, j);
    Stepped(u, Register(t), Moves(hand, 0, h, true), Evicting, s.n);
    NumbersAside(u.items, |u.at|, |s.at|, Moves(hand, 0, h, true));
    LeadsOn(s, [Look(t), Pop(t)], u, Register(t));
    r := Step(u, Register(t));
  }

  /** What is in the hand of a thread that has stopped evicting is freed, and its event is counted. */
  lemma Releases(s: State, t: nat, n: nat) returns (r: State)
    requires Inv(s) && t < |s.threads| && s.threads[t].phase == Evicting
    requires Hand(t) in s.items && Gone in s.items && n == |s.items[Hand(t)]|
    ensures Leads(s, Releasing(t, n), r)
    ensures Only(s, r, t, Top, LastMoved(s.items, Hand(t), Gone, n), s.n.(processed := s.n.processed + 1))
  {
    hide Shaped, Owned, Staged, Balanced, Enabled, Step, ItemsAfter, TransferOf, PhaseAfter, CountersAfter, Times,
      LastMoved, Possible;
    Stops(s, t);
    Stepped(s, StopEvicting(t), Nothing, Freeing, s.n);
    SameItems(s.items, |s.at|);
    var u := Step(s, StopEvicting(t));
    OneRuns(s, StopEvicting(t));
    var v := FreesAll(u, t, n);
    LeadsFurther(s, [StopEvicting(t)], u, Times(FreeVictim(t), n), v);
    LastMovedAre(s.items, Hand(t), Gone, n);
    Counts(v, t);
    Stepped(v, CountProcessed(t), Nothing, Top, s.n.(processed := s.n.processed + 1));
    SameItems(v.items, |v.at|);
    LeadsOn(s, [StopEvicting(t)] + Times(FreeVictim(t), n), v, CountProcessed(t));
    r := Step(v, CountProcessed(t));
  }

  /** A match thread can list the first event of its queue and evict as many as there were in its history; then it is
      where it was, and nothing else has changed. */
  lemma TakenIsListed(s: State, t: nat, j: nat, n: nat) returns (r: State)
    requires MatchHasInput(s, t, j) && n <= |s.items[Shard(j)]|
    ensures Leads(s, Listing(t, n), r)
    ensures Only(s, r, t, Top, Listed(s.items, Queue(DecodeQueues() + j), Shard(j), n),
                 s.n.(processed := s.n.processed + 1))
  {
    hide Shaped, Owned, Staged, Balanced, Enabled, Step, Times, Listed, LastMoved, Releasing;
    var u := Enters(s, t, j);
    EmptyHand(s, t);
    ListedItems(s.items, Queue(DecodeQueues() + j), Hand(t), Shard(j), n);
    var v := Evictions(u, t, j, n);
    LeadsFurther(s, [Look(t), Pop(t)] + [Register(t)], u, Times(Evict(t), n), v);
    r := Releases(v, t, n);
    LeadsFurther(s, Entering(t, n), v, Releasing(t, n), r);
  }

  lemma EmptyHand(s: State, t: nat)
    requires HasInput(s, t)
    ensures Hand(t) in s.items && s.items[Hand(t)] == []
  {
    Looks(s, t);
  }

  // -------------------------------------------------------------------------------------------
  // Other ends of an item

  /** An ending that takes several steps: the item goes away with the first or the last of them. */
  datatype Ending = Archived(q: nat) | Alone | ShardFull | QueueFull

  function Steps(e: Ending, t: nat): seq<Action> {
    match e
    case Archived(q) => [Archive(t, q), CountProcessed(t)]
    case Alone => [Judge(t), CountProcessed(t), Finish(t)]
    case ShardFull => [PushFails(t), TestDrop(t), CountShardDrop(t), CountDrop(t)]
    case QueueFull => [PushFails(t), CountDrop(t)]
  }

  /** A match thread archives an event or frees it, a decoder fails to push to a shard, a demultiplexer to a decoder. */
  ghost predicate MayEnd(s: State, t: nat, e: Ending)
    requires Inv(s) && t < |s.threads|
  {
    match e
    case Archived(q) => s.threads[t].role.Match? && Feeds(s, s.threads[t].role, q) && q < AllQueues(s) && Accepts(s, q)
    case Alone => s.threads[t].role.Match?
    case ShardFull => s.threads[t].role.Decode? && !s.shuttingDown
    case QueueFull => s.threads[t].role.Demux?
  }

  function Total(n: Counters, e: Ending): Counters {
    match e
    case Archived(_) => n.(processed := n.processed + 1)
    case Alone => n.(processed := n.processed + 1)
    case ShardFull => n.(dropped := n.dropped + 1, shardDropped := n.shardDropped + 1)
    case QueueFull => n.(dropped := n.dropped + 1, elsewhere := n.elsewhere + 1)
  }

  function Target(e: Ending): Place {
    if e.Archived? then Queue(e.q) else Gone
  }

  ghost predicate Holds(s: State, t: nat, e: Ending) {
    && Inv(s) && t < |s.threads| && s.threads[t].phase == Has && MayEnd(s, t, e)
    && Hand(t) in s.items && |s.items[Hand(t)]| == 1 && Target(e) in s.items
  }

  /** The ending was taken: the item is where it goes to, and the counters are right. */
  ghost predicate Ended(s: State, r: State, t: nat, e: Ending)
    requires Holds(s, t, e)
  {
    Only(s, r, t, Top, MovedItems(s.items, Hand(t), 0, Target(e), false), Total(s.n, e))
  }

  lemma EndsArchived(s: State, t: nat, e: Ending) returns (r: State)
    requires Holds(s, t, e) && e.Archived?
    ensures Leads(s, Steps(e, t), r) && Ended(s, r, t, e)
  {
    hide Shaped, Owned, Staged, Balanced, Enabled, Step, TransferOf, PhaseAfter, CountersAfter, MayEnd, MovedItems;
    var x := Moves(Hand(t), 0, Queue(e.q), false);
    Archives(s, t, e.q);
    Stepped(s, Archive(t, e.q), x, Given, s.n);
    var u := Step(s, Archive(t, e.q));
    CountsGiven(u, t);
    Stepped(u, CountProcessed(t), Nothing, Top, Total(s.n, e));
    OneRuns(s, Archive(t, e.q));
    LeadsOn(s, [Archive(t, e.q)], u, CountProcessed(t));
    assert [Archive(t, e.q)] + [CountProcessed(t)] == Steps(e, t);
    r := Step(u, CountProcessed(t));
  }

  lemma Archives(s: State, t: nat, q: nat)
    requires Holds(s, t, Archived(q))
    ensures Does(s, Archive(t, q), Moves(Hand(t), 0, Queue(q), false), Given, s.n)
  {
    hide Owned, Staged, Balanced, Fits;
  }

  lemma CountsGiven(s: State, t: nat)
    requires Inv(s) && t < |s.threads| && (s.threads[t].phase == Given || s.threads[t].phase == Judged)
    ensures Does(s, CountProcessed(t), Nothing, if s.threads[t].phase == Given then Top else Done,
                 s.n.(processed := s.n.processed + 1))
  {
    hide Owned, Staged, Balanced, Fits;
  }

  lemma EndsAlone(s: State, t: nat, e: Ending) returns (r: State)
    requires Holds(s, t, e) && e.Alone?
    ensures Leads(s, Steps(e, t), r) && Ended(s, r, t, e)
  {
    hide Shaped, Owned, Staged, Balanced, Enabled, Step, TransferOf, PhaseAfter, CountersAfter, MayEnd, MovedItems;
    Judges(s, t);
    Stepped(s, Judge(t), Nothing, Judged, s.n);
    var u := Step(s, Judge(t));
    CountsGiven(u, t);
    Stepped(u, CountProcessed(t), Nothing, Done, Total(s.n, e));
    var v := Step(u, CountProcessed(t));
    Finishes(v, t);
    Stepped(v, Finish(t), Moves(Hand(t), 0, Gone, false), Top, Total(s.n, e));
    r := LeadsThrice(s, Judge(t), CountProcessed(t), Finish(t));
  }

  lemma Judges(s: State, t: nat)
    requires Holds(s, t, Alone)
    ensures Does(s, Judge(t), Nothing, Judged, s.n)
  {
    hide Owned, Staged, Balanced, Fits;
  }

  lemma Finishes(s: State, t: nat)
    requires Inv(s) && t < |s.threads| && s.threads[t].phase == Done
    ensures Does(s, Finish(t), Moves(Hand(t), 0, Gone, false), Top, s.n)
  {
    hide Owned, Staged, Balanced, Fits;
  }

  /** The first two steps of a decoder whose push failed: the event is freed and the flag is looked at. */
  lemma PushFailed(s: State, t: nat)
    requires Inv(s) && t < |s.threads| && s.threads[t].phase == Has
    requires s.threads[t].role.Decode? || s.threads[t].role.Demux?
    ensures Does(s, PushFails(t), Moves(Hand(t), 0, Gone, false),
                 if s.threads[t].role.Decode? then DropTest else OwesDrop(false), s.n)
  {
    hide Owned, Staged, Balanced, Fits;
  }

  lemma TestsDrop(s: State, t: nat)
    requires Inv(s) && t < |s.threads| && s.threads[t].phase == DropTest && !s.shuttingDown
    ensures Does(s, TestDrop(t), Nothing, OwesShardDrop, s.n)
  {
    hide Owned, Staged, Balanced, Fits;
  }

  lemma CountsShardDrop(s: State, t: nat)
    requires Inv(s) && t < |s.threads| && s.threads[t].phase == OwesShardDrop
    ensures Does(s, CountShardDrop(t), Nothing, OwesDrop(true), s.n.(shardDropped := s.n.shardDropped + 1))
  {
    hide Owned, Staged, Balanced, Fits;
  }

  lemma CountsDrop(s: State, t: nat)
    requires Inv(s) && t < |s.threads| && s.threads[t].phase.OwesDrop?
    ensures Does(s, CountDrop(t), Nothing, Top,
                 s.n.(dropped := s.n.dropped + 1,
                      elsewhere := s.n.elsewhere + if s.threads[t].phase == OwesDrop(true) then 0 else 1))
  {
    hide Owned, Staged, Balanced, Fits;
  }

  lemma EndsAtQueue(s: State, t: nat, e: Ending) returns (r: State)
    requires Holds(s, t, e) && e.QueueFull?
    ensures Leads(s, Steps(e, t), r) && Ended(s, r, t, e)
  {
    hide Shaped, Owned, Staged, Balanced, Enabled, Step, TransferOf, PhaseAfter, CountersAfter, MovedItems;
    PushFailed(s, t);
    Stepped(s, PushFails(t), Moves(Hand(t), 0, Gone, false), OwesDrop(false), s.n);
    var u := Step(s, PushFails(t));
    CountsDrop(u, t);
    Stepped(u, CountDrop(t), Nothing, Top, Total(s.n, e));
    OneRuns(s, PushFails(t));
    LeadsOn(s, [PushFails(t)], u, CountDrop(t));
    assert [PushFails(t)] + [CountDrop(t)] == Steps(e, t);
    r := Step(u, CountDrop(t));
  }

  lemma EndsAtShard(s: State, t: nat, e: Ending) returns (r: State)
    requires Holds(s, t, e) && e.ShardFull?
    ensures Leads(s, Steps(e, t), r) && Ended(s, r, t, e)
  {
    hide Shaped, Owned, Staged, Balanced, Enabled, Step, TransferOf, PhaseAfter, CountersAfter, MovedItems;
    PushFailed(s, t);
    Stepped(s, PushFails(t), Moves(Hand(t), 0, Gone, false), DropTest, s.n);
    var u := Step(s, PushFails(t));
    TestsDrop(u, t);
    Stepped(u, TestDrop(t), Nothing, OwesShardDrop, s.n);
    var v := Step(u, TestDrop(t));
    CountsShardDrop(v, t);
    Stepped(v, CountShardDrop(t), Nothing, OwesDrop(true), s.n.(shardDropped := s.n.shardDropped + 1));
    var w := Step(v, CountShardDrop(t));
    CountsDrop(w, t);
    Stepped(w, CountDrop(t), Nothing, Top, Total(s.n, e));
    r := LeadsThrice(s, PushFails(t), TestDrop(t), CountShardDrop(t));
    LeadsOn(s, [PushFails(t), TestDrop(t), CountShardDrop(t)], r, CountDrop(t));
    assert [PushFails(t), TestDrop(t), CountShardDrop(t)] + [CountDrop(t)] == Steps(e, t);
    r := Step(w, CountDrop(t));
  }

  lemma MovesThem(items: map<Place, seq<Id>>, next: nat, from: Place, to: Place)
    requires Possible(items, Moves(from, 0, to, false))
    ensures ItemsAfter(items, next, Moves(from, 0, to, false)) == MovedItems(items, from, 0, to, false)
  {
  }

  lemma EndsSo(s: State, t: nat, e: Ending) returns (r: State)
    requires Holds(s, t, e)
    ensures Leads(s, Steps(e, t), r) && Ended(s, r, t, e)
  {
    hide *;
    match e
    case Archived(_) => r := EndsArchived(s, t, e);
    case Alone => r := EndsAlone(s, t, e);
    case ShardFull => r := EndsAtShard(s, t, e);
    case QueueFull => r := EndsAtQueue(s, t, e);
  }

  lemma TargetIsThere(s: State, t: nat, e: Ending)
    requires HasInput(s, t) && MayEnd(s, t, e)
    ensures Target(e) in s.items && Target(e) != Queue(Input(s, s.threads[t].role)) && !Target(e).Hand?
  {
    hide Owned, Staged, Balanced, Fits;
    assert RoleOk(s, s.threads[t].role);
  }

  /** Taking an item makes no other queue longer. */
  lemma StillMayEnd(s: State, r: State, t: nat, e: Ending)
    requires HasInput(s, t) && MayEnd(s, t, e) && Inv(r)
    requires var x := Moves(Queue(Input(s, s.threads[t].role)), 0, Hand(t), false);
      Possible(s.items, x) && Only(s, r, t, Has, ItemsAfter(s.items, |s.at|, x), s.n)
    ensures Holds(r, t, e)
  {
    hide Owned, Staged, Balanced;
    TargetIsThere(s, t, e);
    assert Fits(r.threads[t].role, r.threads[t].phase, |r.items[Hand(t)]|);
  }

  /** A thread that may end an item that way can do so with the first of its input: it archives or frees it and counts
      it as processed, or fails to push it and counts it as dropped, once, and as a shard drop where it is one. Then
      it is where it was, and nothing else has changed. */
  lemma TakenIsEnded(s: State, t: nat, e: Ending) returns (r: State)
    requires HasInput(s, t) && MayEnd(s, t, e)
    ensures Leads(s, [Look(t), Pop(t)] + Steps(e, t), r)
    ensures var q := Queue(Input(s, s.threads[t].role));
      && Target(e) in s.items && Target(e) != q
      && Only(s, r, t, Top, Passed(s.items, q, Target(e)), Total(s.n, e))
  {
    hide Shaped, Owned, Staged, Balanced, Enabled, Step, ItemsAfter, MayEnd, Total, Input, Passed, Target, MovedItems;
    TargetIsThere(s, t, e);
    var u := Takes(s, t);
    StillMayEnd(s, u, t, e);
    var q := Queue(Input(s, s.threads[t].role));
    ThroughHand(s.items, |s.at|, q, Hand(t), Target(e));
    MovesThem(u.items, |s.at|, Hand(t), Target(e));
    r := EndsSo(u, t, e);
    LeadsFurther(s, [Look(t), Pop(t)], u, Steps(e, t), r);
  }

  // -------------------------------------------------------------------------------------------
  // Copies for the writers

  /** A match thread that holds its event or has none any more, or a decoder that holds one. */
  predicate Copies(th: Thread, held: nat) {
    (th.phase == Has && (th.role.Match? || th.role.Decode?)) || (th.phase == Freeing && th.role.Match? && held == 0)
  }

  /** A copy can go to a writer's queue that is open and has room, and then only that queue and the numbers given out
      have changed: the thread goes on with what it held. */
  lemma CopyIsHandedOn(s: State, t: nat, q: nat) returns (r: State)
    requires Inv(s) && t < |s.threads| && Hand(t) in s.items && Copies(s.threads[t], |s.items[Hand(t)]|)
    requires CopiesTo(s, s.threads[t].role, q) && q < AllQueues(s) && Accepts(s, q)
    ensures Leads(s, [Copy(t), PushCopy(t, q)], r) && Queue(q) in s.items
    ensures Only(s, r, t, s.threads[t].phase, s.items[Queue(q) := s.items[Queue(q)] + [|s.at|]], s.n)
  {
    hide Shaped, Owned, Staged, Balanced, Enabled, Step, ItemsAfter, TransferOf, PhaseAfter, CountersAfter, CopiesTo;
    CopyIsMade(s, t);
    var u := Step(s, Copy(t));
    Stepped(s, Copy(t), Makes(Hand(t)), Copying(s.threads[t].phase), s.n);
    CopyIsPushed(s, u, t, q);
    var x := Moves(Hand(t), |s.items[Hand(t)]|, Queue(q), false);
    Stepped(u, PushCopy(t, q), x, s.threads[t].phase, s.n);
    NewMoved(s.items, |s.at|, |u.at|, Hand(t), Queue(q));
    OneRuns(s, Copy(t));
    LeadsOn(s, [Copy(t)], u, PushCopy(t, q));
    assert [Copy(t)] + [PushCopy(t, q)] == [Copy(t), PushCopy(t, q)];
    r := Step(u, PushCopy(t, q));
  }

  lemma CopyIsMade(s: State, t: nat)
    requires Inv(s) && t < |s.threads| && Hand(t) in s.items && Copies(s.threads[t], |s.items[Hand(t)]|)
    ensures Does(s, Copy(t), Makes(Hand(t)), Copying(s.threads[t].phase), s.n)
  {
    hide Owned, Staged, Balanced, Fits;
  }

  lemma CopyIsPushed(s: State, u: State, t: nat, q: nat)
    requires Inv(s) && Inv(u) && t < |s.threads| && Hand(t) in s.items && Copies(s.threads[t], |s.items[Hand(t)]|)
    requires CopiesTo(s, s.threads[t].role, q) && q < AllQueues(s) && Accepts(s, q)
    requires Possible(s.items, Makes(Hand(t)))
    requires Only(s, u, t, Copying(s.threads[t].phase), ItemsAfter(s.items, |s.at|, Makes(Hand(t))), s.n)
    ensures Queue(q) in s.items
    ensures Does(u, PushCopy(t, q), Moves(Hand(t), |s.items[Hand(t)]|, Queue(q), false), s.threads[t].phase, s.n)
  {
    hide Owned, Staged, Balanced, Fits;
  }

  lemma NewMoved(items: map<Place, seq<Id>>, next: nat, later: nat, hand: Place, to: Place)
    requires hand in items && to in items && hand != to
    ensures var x, y := Makes(hand), Moves(hand, |items[hand]|, to, false);
      && Possible(items, x) && Possible(ItemsAfter(items, next, x), y)
      && ItemsAfter(ItemsAfter(items, next, x), later, y) == items[to := items[to] + [next]]
  {
    var u := ItemsAfter(items, next, Makes(hand));
    assert Without(u[hand], |items[hand]|) == items[hand];
    assert u[hand][|items[hand]|] == next;
    assert items[hand := items[hand]] == items;
  }

  // -------------------------------------------------------------------------------------------
  // The whole way

  /** The receiver takes a message from the socket and queues it. */
  lemma MessageIsQueued(s: State, t: nat) returns (r: State)
    requires Inv(s) && !s.shuttingDown && t < |s.threads| && s.threads[t] == Thread(Recv, Top) && Accepts(s, RAW)
    ensures Leads(s, [Look(t), Receive(t), Push(t, RAW)], r) && Queue(RAW) in s.items
    ensures Only(s, r, t, Top, s.items[Queue(RAW) := s.items[Queue(RAW)] + [|s.at|]],
                 s.n.(received := s.n.received + 1))
  {
    hide Shaped, Owned, Staged, Balanced, Enabled, Step, ItemsAfter, TransferOf, PhaseAfter, CountersAfter, Accepts;
    var n := s.n.(received := s.n.received + 1);
    Looks(s, t);
    Stepped(s, Look(t), Nothing, Ready, s.n);
    SameItems(s.items, |s.at|);
    NoneMade(s, Look(t), Ready, s.n);
    var u := Step(s, Look(t));
    Receives(s, u, t);
    Stepped(u, Receive(t), Makes(Hand(t)), Has, n);
    var v := Step(u, Receive(t));
    PushesRaw(s, v, t);
    Stepped(v, Push(t, RAW), Moves(Hand(t), 0, Queue(RAW), false), Top, n);
    NewMoved(s.items, |s.at|, |v.at|, Hand(t), Queue(RAW));
    r := LeadsThrice(s, Look(t), Receive(t), Push(t, RAW));
  }

  lemma NoneMade(s: State, a: Action, phase: Phase, n: Counters)
    requires Inv(s) && Does(s, a, Nothing, phase, n)
    ensures Step(s, a).at == s.at
  {
    hide Inv, Shaped, Owned, Staged, Balanced, Enabled, ItemsAfter, CountersAfter, PhaseAfter, TransferOf;
  }

  lemma Receives(s: State, u: State, t: nat)
    requires Inv(u) && t < |s.threads| && s.threads[t].role == Recv && Only(s, u, t, Ready, s.items, s.n)
    ensures Does(u, Receive(t), Makes(Hand(t)), Has, s.n.(received := s.n.received + 1))
  {
    hide Owned, Staged, Balanced, Fits;
  }

  lemma PushesRaw(s: State, v: State, t: nat)
    requires Inv(s) && Inv(v) && t < |s.threads| && s.threads[t].role == Recv && Accepts(s, RAW)
    requires Hand(t) in s.items && s.items[Hand(t)] == [] && Possible(s.items, Makes(Hand(t)))
    requires Only(s, v, t, Has, ItemsAfter(s.items, |s.at|, Makes(Hand(t))), s.n.(received := s.n.received + 1))
    ensures Queue(RAW) in s.items
    ensures Does(v, Push(t, RAW), Moves(Hand(t), 0, Queue(RAW), false), Top, s.n.(received := s.n.received + 1))
  {
    hide Owned, Staged, Balanced, Fits;
  }

  /** A thread of each stage, for one kind of message and one shard. */
  datatype Way = Way(recv: nat, demux: nat, decode: nat, last: nat, kind: nat, shard: nat)

  ghost predicate AtTop(s: State, t: nat, role: Role) {
    t < |s.threads| && s.threads[t] == Thread(role, Top)
  }

  /** The queue is there, open and empty. */
  ghost predicate Clear(s: State, q: nat) {
    q < AllQueues(s) && q !in s.closed && Queue(q) in s.items && s.items[Queue(q)] == []
  }

  /** Shutdown is not requested, the four threads are about to look at the flag, and the queues between them are open
      and empty. */
  ghost predicate WayIsClear(s: State, w: Way) {
    && Inv(s) && !s.shuttingDown && w.kind < KINDS && w.shard < s.shards
    && AtTop(s, w.recv, Recv) && AtTop(s, w.demux, Demux) && AtTop(s, w.decode, Decode(w.kind))
    && AtTop(s, w.last, Match(w.shard))
    && Clear(s, RAW) && Clear(s, 1 + w.kind) && Clear(s, DecodeQueues() + w.shard)
    && Shard(w.shard) in s.items && Gone in s.items
  }

  /** The steps of these threads for one message. */
  function WholeWay(w: Way, n: nat): seq<Action> {
    ToItsShard(w) + Listing(w.last, n)
  }

  function ToItsShard(w: Way): seq<Action> {
    [Look(w.recv), Receive(w.recv), Push(w.recv, RAW)]
    + [Look(w.demux), Pop(w.demux), Push(w.demux, 1 + w.kind)]
    + [Look(w.decode), Pop(w.decode), Push(w.decode, DecodeQueues() + w.shard)]
  }

  /** The threads and the flags are as they were. */
  ghost predicate OnlyItems(s: State, r: State, items: map<Place, seq<Id>>, n: Counters) {
    && r.threads == s.threads && r.items == items && r.n == n && r.shards == s.shards && r.size == s.size
    && r.closed == s.closed && r.shuttingDown == s.shuttingDown && r.stage == s.stage
  }

  lemma IsAccepted(s: State, q: nat)
    requires Inv(s) && Clear(s, q)
    ensures Places(s) && Accepts(s, q)
  {
  }

  /** A message of this number is in this queue, and else the state is `s`. */
  ghost predicate LoneItem(s: State, r: State, q: nat, x: Id, n: Counters) {
    OnlyItems(s, r, s.items[Queue(q) := [x]], n)
  }

  /** One thread on the way: the only item goes on to the next queue. */
  lemma GoesOn(s: State, u: State, t: nat, role: Role, x: Id, q: nat, n: Counters) returns (r: State)
    requires Inv(s) && Inv(u) && !s.shuttingDown && AtTop(s, t, role) && (role.Demux? || role.Decode?)
    requires Clear(s, Input(s, role)) && LoneItem(s, u, Input(s, role), x, n) && Input(s, role) != q
    requires Clear(s, q) && Feeds(s, role, q)
    ensures Leads(u, [Look(t), Pop(t), Push(t, q)], r) && LoneItem(s, r, q, x, n) && Inv(r)
  {
    hide Inv, Shaped, Owned, Accepts, Feeds, Input, Leads, Clear, Places, Passed, LoneItem, AllQueues;
    GoesOnHere(s, u, t, role, x, q, n);
    r := TakenIsHandedOn(u, Push(t, q));
    LeadsInv(u, [Look(t), Pop(t), Push(t, q)], r);
    LoneAfter(s, u, r, t, role, x, q, n);
  }

  /** The next thread has that item before it, and the queue after it has room. */
  lemma GoesOnHere(s: State, u: State, t: nat, role: Role, x: Id, q: nat, n: Counters)
    requires Inv(s) && Inv(u) && !s.shuttingDown && AtTop(s, t, role) && (role.Demux? || role.Decode?)
    requires Clear(s, Input(s, role)) && LoneItem(s, u, Input(s, role), x, n) && Input(s, role) != q
    requires Clear(s, q) && Feeds(s, role, q)
    ensures HasInput(u, t) && Ends(u.threads[t].role, Push(t, q)) && Feeds(u, u.threads[t].role, q)
    ensures q < AllQueues(u) && Places(u) && Accepts(u, q)
  {
    hide Owned, Staged, Balanced, Fits;
  }

  lemma LoneAfter(s: State, u: State, r: State, t: nat, role: Role, x: Id, q: nat, n: Counters)
    requires AtTop(s, t, role) && Clear(s, Input(s, role)) && Clear(s, q) && Input(s, role) != q
    requires LoneItem(s, u, Input(s, role), x, n) && HasInput(u, t) && Queue(q) in u.items
    requires Only(u, r, t, Top, Passed(u.items, Queue(Input(u, u.threads[t].role)), Queue(q)), u.n)
    ensures LoneItem(s, r, q, x, n)
  {
    hide Inv, AllQueues;
    var from := Queue(Input(s, role));
    assert Input(u, role) == Input(s, role);
    assert [x][1..] == [] && [] + [x] == [x];
    assert s.items[from := [x]][from := []] == s.items;
  }

  lemma MessageIsDecoded(s: State, w: Way) returns (r: State)
    requires WayIsClear(s, w)
    ensures Leads(s, ToItsShard(w), r)
    ensures LoneItem(s, r, DecodeQueues() + w.shard, |s.at|, s.n.(received := s.n.received + 1)) && Inv(r)
  {
    hide Inv, Leads, Accepts, LoneItem, Clear, Only;
    IsAccepted(s, RAW);
    var x, n := |s.at|, s.n.(received := s.n.received + 1);
    var a := MessageIsQueued(s, w.recv);
    LeadsInv(s, [Look(w.recv), Receive(w.recv), Push(w.recv, RAW)], a);
    LoneAtFirst(s, a, w.recv, x, n);
    var b := GoesOn(s, a, w.demux, Demux, x, 1 + w.kind, n);
    r := GoesOn(s, b, w.decode, Decode(w.kind), x, DecodeQueues() + w.shard, n);
    WayTogether(s, w, a, b, r);
  }

  lemma LoneAtFirst(s: State, a: State, t: nat, x: Id, n: Counters)
    requires AtTop(s, t, Recv) && Clear(s, RAW)
    requires Only(s, a, t, Top, s.items[Queue(RAW) := s.items[Queue(RAW)] + [x]], n)
    ensures LoneItem(s, a, RAW, x, n)
  {
    assert s.items[Queue(RAW)] + [x] == [x];
  }

  /** With the way clear, a message can be received, decoded, listed and counted, whatever the other threads are at:
      it gets the next number, it is the first of its shard's history, as many old events as one likes are evicted and
      freed, and everything else is as it was. */
  lemma MessageComesThrough(s: State, w: Way, n: nat) returns (r: State)
    requires WayIsClear(s, w) && n <= |s.items[Shard(w.shard)]|
    ensures Leads(s, WholeWay(w, n), r)
    ensures var l, k := s.items[Shard(w.shard)], |s.items[Shard(w.shard)]| - n;
      OnlyItems(s, r, s.items[Shard(w.shard) := [|s.at|] + l[..k]][Gone := s.items[Gone] + l[k..]],
                s.n.(received := s.n.received + 1, processed := s.n.processed + 1))
  {
    hide Inv, Leads, ToItsShard, Listing, Listed, Only, LoneItem, OnlyItems, WayIsClear, MatchHasInput;
    var c := MessageIsDecoded(s, w);
    MatchIsReady(s, c, w);
    r := TakenIsListed(c, w.last, w.shard, n);
    LeadsFurther(s, ToItsShard(w), c, Listing(w.last, n), r);
    ListedClear(s, c, r, w, n);
  }

  lemma MatchIsReady(s: State, c: State, w: Way)
    requires WayIsClear(s, w) && Inv(c)
    requires LoneItem(s, c, DecodeQueues() + w.shard, |s.at|, s.n.(received := s.n.received + 1))
    ensures Inv(s) && MatchHasInput(c, w.last, w.shard) && c.items[Shard(w.shard)] == s.items[Shard(w.shard)]
  {
    hide Inv, AllQueues;
  }

  lemma ListedClear(s: State, c: State, r: State, w: Way, n: nat)
    requires WayIsClear(s, w) && n <= |s.items[Shard(w.shard)]| && MatchHasInput(c, w.last, w.shard)
    requires c.items[Shard(w.shard)] == s.items[Shard(w.shard)]
    requires LoneItem(s, c, DecodeQueues() + w.shard, |s.at|, s.n.(received := s.n.received + 1))
    requires Only(c, r, w.last, Top, Listed(c.items, Queue(DecodeQueues() + w.shard), Shard(w.shard), n),
                  c.n.(processed := c.n.processed + 1))
    ensures var l, k := s.items[Shard(w.shard)], |s.items[Shard(w.shard)]| - n;
      OnlyItems(s, r, s.items[Shard(w.shard) := [|s.at|] + l[..k]][Gone := s.items[Gone] + l[k..]],
                s.n.(received := s.n.received + 1, processed := s.n.processed + 1))
  {
    hide Inv, AllQueues;
    assert [|s.at|][1..] == [];
    assert s.items[Queue(DecodeQueues() + w.shard) := [|s.at|]][Queue(DecodeQueues() + w.shard) := []] == s.items;
  }

  lemma LeadsInv(s: State, actions: seq<Action>, r: State)
    requires Inv(s) && Leads(s, actions, r)
    ensures Inv(r)
  {
  }

  lemma WayTogether(s: State, w: Way, a: State, b: State, c: State)
    requires Inv(s) && Inv(a) && Inv(b)
    requires Leads(s, [Look(w.recv), Receive(w.recv), Push(w.recv, RAW)], a)
    requires Leads(a, [Look(w.demux), Pop(w.demux), Push(w.demux, 1 + w.kind)], b)
    requires Leads(b, [Look(w.decode), Pop(w.decode), Push(w.decode, DecodeQueues() + w.shard)], c)
    ensures Leads(s, ToItsShard(w), c)
  {
    hide Inv, Leads;
    var x, y := [Look(w.recv), Receive(w.recv), Push(w.recv, RAW)],
                [Look(w.demux), Pop(w.demux), Push(w.demux, 1 + w.kind)];
    LeadsFurther(s, x, a, y, b);
    LeadsFurther(s, x + y, b, [Look(w.decode), Pop(w.decode), Push(w.decode, DecodeQueues() + w.shard)], c);
  }
}
