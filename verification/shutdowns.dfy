/** When shutdown can be completed: a decoder waits without bound for room in the firewall writer's queue, that writer
    stops at the shutdown flag, and its queue is shut down only after the decoders are joined. */
module Shutdowns {
  import opened Events
  import opened Pipeline
  import opened PipelineRuns

  /** A decoder that holds a copy for the firewall log. */
  predicate Waits(th: Thread) {
    th.role.Decode? && th.phase.Copying?
  }

  /** A firewall writer that will take one more item before it looks at the flag again. */
  predicate Helps(th: Thread) {
    th.role == Writer(FIREWALL) && th.phase == Ready
  }

  function Waiters(threads: seq<Thread>): nat {
    if threads == [] then 0 else (if Waits(threads[0]) then 1 else 0) + Waiters(threads[1..])
  }

  function Helpers(threads: seq<Thread>): nat {
    if threads == [] then 0 else (if Helps(threads[0]) then 1 else 0) + Helpers(threads[1..])
  }

  ghost function Room(s: State): nat
    requires Shaped(s)
  {
    var n := |s.items[Queue(FirewallQueue(s))]|;
    if n + 1 < s.size then s.size - 1 - n else 0
  }

  /** There is room for every copy that waits, now or once the writers that are not stopped took one item each. */
  ghost predicate Completable(s: State)
    requires Shaped(s)
  {
    Waiters(s.threads) <= Room(s) + Helpers(s.threads)
  }

  lemma {:induction false} WaitersUpdated(threads: seq<Thread>, t: nat, th: Thread)
    requires t < |threads|
    ensures Waiters(threads[t := th])
      == Waiters(threads) - (if Waits(threads[t]) then 1 else 0) + (if Waits(th) then 1 else 0)
    ensures Helpers(threads[t := th])
      == Helpers(threads) - (if Helps(threads[t]) then 1 else 0) + (if Helps(th) then 1 else 0)
  {
    if t > 0 {
      WaitersUpdated(threads[1..], t - 1, th);
      assert threads[t := th][1..] == threads[1..][t - 1 := th];
    } else {
      assert threads[t := th][1..] == threads[1..];
    }
  }

  lemma {:induction false} SomeoneWaits(threads: seq<Thread>) returns (t: nat)
    requires Waiters(threads) > 0
    ensures t < |threads| && Waits(threads[t])
  {
    if Waits(threads[0]) {
      t := 0;
    } else {
      var u := SomeoneWaits(threads[1..]);
      t := u + 1;
    }
  }

  lemma {:induction false} SomeoneHelps(threads: seq<Thread>) returns (t: nat)
    requires Helpers(threads) > 0
    ensures t < |threads| && Helps(threads[t])
  {
    if Helps(threads[0]) {
      t := 0;
    } else {
      var u := SomeoneHelps(threads[1..]);
      t := u + 1;
    }
  }

  lemma {:induction false} NobodyWaits(threads: seq<Thread>)
    requires Waiters(threads) == 0
    ensures forall t | 0 <= t < |threads| :: !Waits(threads[t])
  {
    if threads != [] {
      NobodyWaits(threads[1..]);
    }
  }

  // -------------------------------------------------------------------------------------------
  // What a step does to the balance of copies and room

  /** How a step changes who waits and who helps. */
  function WaitGain(s: State, r: State): int {
    Waiters(r.threads) - Waiters(s.threads)
  }

  function HelpGain(s: State, r: State): int {
    Helpers(r.threads) - Helpers(s.threads)
  }

  lemma StepWaiters(s: State, a: Action)
    requires Inv(s) && Enabled(s, a)
    ensures var r := Step(s, a);
      if ByThread(a) then
        var th := s.threads[a.t].(phase := PhaseAfter(s, a));
        && WaitGain(s, r) == (if Waits(th) then 1 else 0) - (if Waits(s.threads[a.t]) then 1 else 0)
        && HelpGain(s, r) == (if Helps(th) then 1 else 0) - (if Helps(s.threads[a.t]) then 1 else 0)
      else WaitGain(s, r) == 0 && HelpGain(s, r) == 0
  {
    hide Owned, Staged, Balanced, ItemsAfter, AtAfter, PhaseAfter, CountersAfter, TransferOf;
    if ByThread(a) {
      WaitersUpdated(s.threads, a.t, s.threads[a.t].(phase := PhaseAfter(s, a)));
    }
  }

  lemma StepRoom(s: State, a: Action)
    requires Inv(s) && Enabled(s, a)
    ensures Shaped(Step(s, a)) && FirewallQueue(Step(s, a)) == FirewallQueue(s)
    ensures Room(Step(s, a)) == Room(s) - Gain(TransferOf(s, a), Queue(FirewallQueue(s)))
  {
    StepInv(s, a);
    QueueAfter(s, a, FirewallQueue(s));
    FirewallFits(s);
    FirewallFits(Step(s, a));
    hide Owned, Balanced, ItemsAfter, AtAfter, PhaseAfter, CountersAfter, TransferOf;
  }

  lemma FirewallFits(s: State)
    requires Inv(s)
    ensures Queue(FirewallQueue(s)) in s.items && |s.items[Queue(FirewallQueue(s))]| < s.size
  {
  }

  /** While a copy waits the decoders are not joined, so that queue is open and nothing is drained. */
  lemma EarlyStage(s: State)
    requires Inv(s) && Waiters(s.threads) > 0
    ensures s.stage <= 2 && FirewallQueue(s) !in s.closed
  {
    var t := SomeoneWaits(s.threads);
    hide Owned, Balanced, Places;
    assert s.threads[t].phase != Exited;
  }

  /** Once shutdown is requested no step makes more room for the copies that wait, counting the helpers. */
  lemma NothingGained(s: State, a: Action)
    requires Inv(s) && Enabled(s, a) && s.shuttingDown && Waiters(s.threads) > 0
    ensures Gain(TransferOf(s, a), Queue(FirewallQueue(s))) + WaitGain(s, Step(s, a)) - HelpGain(s, Step(s, a)) >= 0
  {
    if ByThread(a) {
      ThreadGains(s, a);
    } else {
      OthersGain(s, a);
    }
    hide *;
  }

  /** What a thread puts into the firewall queue, less what it takes out. */
  lemma FirewallGain(s: State, a: Action)
    requires Inv(s) && Enabled(s, a) && ByThread(a)
    ensures var role, gain := s.threads[a.t].role, Gain(TransferOf(s, a), Queue(FirewallQueue(s)));
      if a.Pop? && role == Writer(FIREWALL) then gain == -1
      else gain >= if a.PushCopy? && role.Decode? then 1 else 0
  {
    hide Owned, Staged, Balanced, Fits, Accepts, Places;
    assert RoleOk(s, s.threads[a.t].role);
  }

  /** How the thread's own waiting and helping changes, while that queue is open. */
  lemma PhaseGain(s: State, a: Action)
    requires Shaped(s) && Enabled(s, a) && ByThread(a) && s.shuttingDown && FirewallQueue(s) !in s.closed
    ensures var th := s.threads[a.t];
      var next := th.(phase := PhaseAfter(s, a));
      && (Waits(th) && !Waits(next) ==> a.PushCopy? && th.role.Decode?)
      && (!Helps(th) ==> !Helps(next))
      && (a.Pop? && th.role == Writer(FIREWALL) ==> Helps(th) && !Helps(next))
  {
    assert Fits(s.threads[a.t].role, s.threads[a.t].phase, |s.items[Hand(a.t)]|);
    hide Places, Accepts;
  }

  lemma ThreadGains(s: State, a: Action)
    requires Inv(s) && Enabled(s, a) && s.shuttingDown && Waiters(s.threads) > 0 && ByThread(a)
    ensures Gain(TransferOf(s, a), Queue(FirewallQueue(s))) + WaitGain(s, Step(s, a)) - HelpGain(s, Step(s, a)) >= 0
  {
    EarlyStage(s);
    StepWaiters(s, a);
    FirewallGain(s, a);
    PhaseGain(s, a);
    assert a.PushCopy? ==> !a.Pop?;
    hide *;
  }

  lemma OthersGain(s: State, a: Action)
    requires Inv(s) && Enabled(s, a) && s.shuttingDown && Waiters(s.threads) > 0 && !ByThread(a)
    ensures Gain(TransferOf(s, a), Queue(FirewallQueue(s))) + WaitGain(s, Step(s, a)) - HelpGain(s, Step(s, a)) >= 0
  {
    EarlyStage(s);
    StepWaiters(s, a);
    hide Owned, Balanced, Step, ItemsAfter, AtAfter, CountersAfter, WaitGain, HelpGain;
  }

  lemma StaysStuck(s: State, a: Action)
    requires Inv(s) && Enabled(s, a) && s.shuttingDown && !Completable(s)
    ensures Inv(Step(s, a)) && Step(s, a).shuttingDown && !Completable(Step(s, a))
  {
    StepInv(s, a);
    NothingGained(s, a);
    StepRoom(s, a);
    hide Shaped, Owned, Staged, Balanced, Enabled, Room, TransferOf;
    assert Step(s, a).shuttingDown;
  }

  /** Without room for a copy that waits shutdown is never completed, whatever the threads do. */
  lemma {:induction false} StuckForever(s: State, actions: seq<Action>)
    requires Inv(s) && s.shuttingDown && !Completable(s) && CanRun(s, actions)
    ensures After(s, actions).stage != FINISHED
    decreases |actions|
  {
    hide Enabled, Completable;
    if actions == [] {
      StuckIsEarly(s);
    } else {
      StaysStuck(s, actions[0]);
      StuckForever(Step(s, actions[0]), actions[1..]);
    }
  }

  lemma StuckIsEarly(s: State)
    requires Inv(s) && !Completable(s)
    ensures s.stage <= 2
  {
    EarlyStage(s);
  }

  // -------------------------------------------------------------------------------------------
  // Completing it

  /** A bound on the steps a thread still needs to exit. */
  function Cost(phase: Phase, held: nat, open: bool): nat {
    match phase
    case Exited => 0
    case Top => 1
    case OwesDrop(_) => 2
    case OwesShardDrop => 3
    case Given => 3
    case Done => 3
    case DropTest => 4
    case Judged => 5
    case Freeing => 6 + held
    case Evicting => 7 + held
    case Has => 10
    case Copying(_) => 12
    case Ready => if open then 16 else 15
  }

  ghost function CostAt(s: State, t: nat): nat
    requires Shaped(s) && t < |s.threads|
  {
    Cost(s.threads[t].phase, |s.items[Hand(t)]|, Input(s, s.threads[t].role) !in s.closed)
  }

  ghost function Effort(s: State, n: nat): nat
    requires Shaped(s) && n <= |s.threads|
  {
    if n == 0 then 0 else Effort(s, n - 1) + CostAt(s, n - 1)
  }

  /** No thread got further from its end. */
  ghost predicate NoDearer(s: State, r: State)
    requires Shaped(s) && Shaped(r)
  {
    |r.threads| == |s.threads| && forall t | 0 <= t < |s.threads| :: CostAt(r, t) <= CostAt(s, t)
  }

  lemma {:induction false} EffortDrops(s: State, r: State, n: nat)
    requires Shaped(s) && Shaped(r) && NoDearer(s, r) && n <= |s.threads|
    ensures Effort(r, n) <= Effort(s, n)
    ensures forall t | 0 <= t < n && CostAt(r, t) < CostAt(s, t) :: Effort(r, n) < Effort(s, n)
  {
    hide Shaped, CostAt;
    if n > 0 {
      EffortDrops(s, r, n - 1);
    }
  }

  /** What is left in the queues and histories. */
  ghost function Kept(items: map<Place, seq<Id>>, n: nat): nat
    requires forall j: nat | j < n :: Shard(j) in items
  {
    if n == 0 then 0 else Kept(items, n - 1) + |items[Shard(n - 1)]|
  }

  ghost function Stored(s: State): nat
    requires Shaped(s)
  {
    Queued(s.items, AllQueues(s)) + Kept(s.items, s.shards)
  }

  /** The change of the first `n` histories together. */
  function KeptGain(x: Transfer, n: nat): int {
    match x
    case Nothing => 0
    case Moves(from, _, to, _) =>
      (if to.Shard? && to.j < n then 1 else 0) - (if from.Shard? && from.j < n then 1 else 0)
    case Makes(to) => if to.Shard? && to.j < n then 1 else 0
  }

  lemma {:induction false} KeptUpdated(items: map<Place, seq<Id>>, next: nat, x: Transfer, n: nat)
    requires Possible(items, x) && forall j: nat | j < n :: Shard(j) in items
    ensures forall j: nat | j < n :: Shard(j) in ItemsAfter(items, next, x)
    ensures Kept(ItemsAfter(items, next, x), n) == Kept(items, n) + KeptGain(x, n)
  {
    TransferKeys(items, next, x);
    if n > 0 {
      TransferLengths(items, next, x, Shard(n - 1));
      KeptUpdated(items, next, x, n - 1);
    }
  }

  /** How a thread of the stage goes on towards its exit; the queue it waits at is shut down if nothing is in it. */
  ghost function NextOf(s: State, t: nat): Action
    requires Shaped(s) && t < |s.threads|
  {
    var role, phase := s.threads[t].role, s.threads[t].phase;
    match phase
    case Ready =>
      if role.Recv? then Idle(t)
      else if s.items[Queue(Input(s, role))] != [] then Pop(t)
      else if Input(s, role) in s.closed then Idle(t)
      else CloseQueue(Input(s, role))
    case Has => if role.Match? then Judge(t) else if role.Writer? then Write(t) else PushFails(t)
    case Evicting => StopEvicting(t)
    case Freeing => if s.items[Hand(t)] != [] then FreeVictim(t) else CountProcessed(t)
    case Given => CountProcessed(t)
    case Judged => CountProcessed(t)
    case Done => Finish(t)
    case Copying(_) => FreeCopy(t)
    case DropTest => TestDrop(t)
    case OwesShardDrop => CountShardDrop(t)
    case OwesDrop(_) => CountDrop(t)
    case _ => Look(t)
  }

  lemma NextIsEnabled(s: State, t: nat)
    requires Inv(s) && s.shuttingDown && t < |s.threads| && s.threads[t].phase != Exited && !Waits(s.threads[t])
    requires s.stage < DRAINING && JoinStage(s.threads[t].role) == s.stage
    ensures Enabled(s, NextOf(s, t))
  {
    hide Owned, Staged, Balanced;
  }

  /** Any step of a thread but taking a copy brings it nearer to its end, once the flag is set. */
  lemma StepCosts(s: State, a: Action)
    requires Inv(s) && Enabled(s, a) && s.shuttingDown && ByThread(a) && !a.Copy? && !a.Evict? && !a.Register?
    ensures Shaped(Step(s, a)) && NoDearer(s, Step(s, a)) && CostAt(Step(s, a), a.t) < CostAt(s, a.t)
  {
    StepInv(s, a);
    OwnCost(s, a);
    hide Owned, Staged, Balanced, Cost;
    forall u | 0 <= u < |s.threads| && u != a.t ensures CostAt(Step(s, a), u) == CostAt(s, u) {
      OtherCost(s, a, u);
    }
    StepThreadsOf(s, a);
    hide Step, Shaped, CostAt;
  }

  lemma StepThreadsOf(s: State, a: Action)
    requires Inv(s) && Enabled(s, a)
    ensures |Step(s, a).threads| == |s.threads|
    ensures !ByThread(a) ==> Step(s, a).threads == s.threads
  {
    hide Owned, Staged, Balanced, ItemsAfter, AtAfter, PhaseAfter, CountersAfter, TransferOf;
  }

  /** What a step does to the hands. */
  lemma HandAfter(s: State, a: Action, t: nat)
    requires Inv(s) && Enabled(s, a) && t < |s.threads|
    ensures Hand(t) in s.items && Hand(t) in Step(s, a).items
    ensures |Step(s, a).items[Hand(t)]| == |s.items[Hand(t)]| + Gain(TransferOf(s, a), Hand(t))
  {
    TransferIsPossible(s, a);
    TransferLengths(s.items, |s.at|, TransferOf(s, a), Hand(t));
    hide ItemsAfter, AtAfter, Owned, Staged, Balanced;
  }

  lemma OtherCost(s: State, a: Action, u: nat)
    requires Inv(s) && Enabled(s, a) && u < |s.threads| && !(ByThread(a) && a.t == u) && !a.CloseQueue?
    ensures Shaped(Step(s, a)) && u < |Step(s, a).threads| && CostAt(Step(s, a), u) == CostAt(s, u)
  {
    StepInv(s, a);
    HandAfter(s, a, u);
    OthersKeepHands(s, a, u);
    hide Owned, Staged, Balanced, ItemsAfter, AtAfter, PhaseAfter, CountersAfter, TransferOf, Gain, Cost;
  }

  lemma OwnCost(s: State, a: Action)
    requires Inv(s) && Enabled(s, a) && s.shuttingDown && ByThread(a) && !a.Copy? && !a.Evict? && !a.Register?
    ensures Shaped(Step(s, a)) && a.t < |Step(s, a).threads| && CostAt(Step(s, a), a.t) < CostAt(s, a.t)
  {
    StepInv(s, a);
    HandAfter(s, a, a.t);
    OwnCostValue(s, a);
    hide Owned, Staged, Balanced, ItemsAfter, AtAfter, PhaseAfter, CountersAfter, TransferOf, Gain, Cost;
  }

  lemma OwnCostValue(s: State, a: Action)
    requires Shaped(s) && Enabled(s, a) && s.shuttingDown && ByThread(a) && !a.Copy? && !a.Evict? && !a.Register?
    ensures var held, open := |s.items[Hand(a.t)]|, Input(s, s.threads[a.t].role) !in s.closed;
      && held + Gain(TransferOf(s, a), Hand(a.t)) >= 0
      && Cost(PhaseAfter(s, a), held + Gain(TransferOf(s, a), Hand(a.t)), open) < Cost(s.threads[a.t].phase, held, open)
  {
    HandsFit(s, a);
  }

  /** Shutting down the queue that a thread waits at. */
  lemma CloseCosts(s: State, q: nat, t: nat)
    requires Inv(s) && Enabled(s, CloseQueue(q)) && t < |s.threads| && s.threads[t].phase == Ready
    requires q == Input(s, s.threads[t].role) && q !in s.closed
    ensures var r := Step(s, CloseQueue(q)); Shaped(r) && NoDearer(s, r) && CostAt(r, t) < CostAt(s, t)
  {
    var r := Step(s, CloseQueue(q));
    StepInv(s, CloseQueue(q));
    hide Owned, Staged, Balanced;
    forall u | 0 <= u < |s.threads| ensures CostAt(r, u) <= CostAt(s, u) {
      HandAfter(s, CloseQueue(q), u);
    }
  }

  /** A step on the way: the stage ends, or it comes nearer to its end, and shutdown stays completable. */
  ghost predicate Nearer(s: State, r: State) {
    && Inv(s) && Inv(r) && r.shuttingDown && Completable(r)
    && (r.stage == s.stage + 1
        || (r.stage == s.stage && |r.threads| == |s.threads| && Effort(r, |r.threads|) < Effort(s, |s.threads|))
        || (r.stage == s.stage && |r.threads| == |s.threads| && Effort(r, |r.threads|) <= Effort(s, |s.threads|)
          && Stored(r) < Stored(s)))
  }

  lemma StageKept(s: State, a: Action)
    requires Inv(s) && Enabled(s, a) && s.shuttingDown
    ensures Step(s, a).shuttingDown && Step(s, a).stage == if a.NextStage? then s.stage + 1 else s.stage
  {
  }

  lemma CheaperIsNearer(s: State, a: Action, t: nat)
    requires Inv(s) && Enabled(s, a) && s.shuttingDown && !a.NextStage? && t < |s.threads|
    requires Inv(Step(s, a)) && NoDearer(s, Step(s, a)) && CostAt(Step(s, a), t) < CostAt(s, t)
    requires Completable(Step(s, a))
    ensures Nearer(s, Step(s, a))
  {
    StageKept(s, a);
    hide Shaped, Owned, Staged, Balanced, Enabled, Step, CostAt, Completable;
    EffortDrops(s, Step(s, a), |s.threads|);
    hide NoDearer, Effort;
  }

  /** A copy waits: it is pushed, or a writer makes room. */
  lemma CopyStep(s: State) returns (a: Action)
    requires Inv(s) && s.shuttingDown && Completable(s) && Waiters(s.threads) > 0
    ensures Enabled(s, a) && Nearer(s, Step(s, a))
  {
    EarlyStage(s);
    FirewallFits(s);
    if Room(s) > 0 {
      var t := SomeoneWaits(s.threads);
      a := PushCopy(t, FirewallQueue(s));
      PushMakesProgress(s, t);
    } else {
      var t := SomeoneHelps(s.threads);
      a := Pop(t);
      PopMakesProgress(s, t);
    }
  }

  lemma PushMakesProgress(s: State, t: nat)
    requires Inv(s) && s.shuttingDown && Completable(s) && Room(s) > 0 && t < |s.threads| && Waits(s.threads[t])
    requires FirewallQueue(s) !in s.closed
    ensures var a := PushCopy(t, FirewallQueue(s)); Enabled(s, a) && Nearer(s, Step(s, a))
  {
    var a := PushCopy(t, FirewallQueue(s));
    hide Owned, Staged, Balanced;
    assert Enabled(s, a);
    assert PhaseAfter(s, a) == Has && Gain(TransferOf(s, a), Queue(FirewallQueue(s))) == 1 by { PushedCopy(s, t); }
    hide Shaped, Enabled, Step, TransferOf, PhaseAfter;
    StepInv(s, a);
    StepRoom(s, a);
    StepWaiters(s, a);
    StepCosts(s, a);
    CheaperIsNearer(s, a, t);
  }

  lemma PushedCopy(s: State, t: nat)
    requires Inv(s) && t < |s.threads| && Waits(s.threads[t]) && Enabled(s, PushCopy(t, FirewallQueue(s)))
    ensures var a := PushCopy(t, FirewallQueue(s));
      PhaseAfter(s, a) == Has && Gain(TransferOf(s, a), Queue(FirewallQueue(s))) == 1
  {
    hide Owned, Staged, Balanced;
    assert Fits(s.threads[t].role, s.threads[t].phase, |s.items[Hand(t)]|);
  }

  lemma PopMakesProgress(s: State, t: nat)
    requires Inv(s) && s.shuttingDown && Completable(s) && Room(s) == 0 && t < |s.threads| && Helps(s.threads[t])
    ensures Enabled(s, Pop(t)) && Nearer(s, Step(s, Pop(t)))
  {
    FirewallFits(s);
    hide Owned, Staged, Balanced;
    assert Input(s, s.threads[t].role) == FirewallQueue(s);
    assert Enabled(s, Pop(t));
    assert PhaseAfter(s, Pop(t)) == Has && Gain(TransferOf(s, Pop(t)), Queue(FirewallQueue(s))) == -1;
    hide Shaped, Enabled, Step, TransferOf, PhaseAfter;
    StepInv(s, Pop(t));
    StepRoom(s, Pop(t));
    StepWaiters(s, Pop(t));
    StepCosts(s, Pop(t));
    CheaperIsNearer(s, Pop(t), t);
  }

  /** No copy waits, and a thread of the stage is not joined. */
  lemma ThreadStep(s: State, t: nat) returns (a: Action)
    requires Inv(s) && s.shuttingDown && Waiters(s.threads) == 0 && s.stage < DRAINING
    requires t < |s.threads| && s.threads[t].phase != Exited && JoinStage(s.threads[t].role) == s.stage
    ensures Enabled(s, a) && Nearer(s, Step(s, a))
  {
    NobodyWaits(s.threads);
    a := NextOf(s, t);
    NextIsEnabled(s, t);
    NextIsPlain(s, t);
    StepInv(s, a);
    NoNewWaiter(s, a);
    if ByThread(a) {
      StepCosts(s, a);
    } else {
      CloseCosts(s, a.q, t);
    }
    hide Owned, Staged, Balanced, Step, Enabled, NextOf;
    CheaperIsNearer(s, a, t);
  }

  lemma NextIsPlain(s: State, t: nat)
    requires Shaped(s) && t < |s.threads|
    ensures var a := NextOf(s, t);
      && !a.Copy? && !a.Evict? && !a.Register? && !a.NextStage?
      && (if ByThread(a) then a.t == t
        else a.CloseQueue? && s.threads[t].phase == Ready && a.q == Input(s, s.threads[t].role) && a.q !in s.closed)
  {
  }

  lemma NoNewWaiter(s: State, a: Action)
    requires Inv(s) && Enabled(s, a) && Waiters(s.threads) == 0 && !a.Copy?
    ensures Shaped(Step(s, a)) && Waiters(Step(s, a).threads) == 0
  {
    NobodyWaits(s.threads);
    StepInv(s, a);
    StepWaiters(s, a);
    hide Owned, Staged, Balanced, Step, TransferOf, CountersAfter;
  }

  /** All threads are joined: what is left is freed. */
  lemma FreeStep(s: State, a: Action)
    requires Inv(s) && s.shuttingDown && Waiters(s.threads) == 0 && Enabled(s, a) && (a.DrainOne? || a.DestroyOne?)
    ensures Nearer(s, Step(s, a))
  {
    StepInv(s, a);
    NoNewWaiter(s, a);
    StageKept(s, a);
    StepThreadsOf(s, a);
    StoredAfter(s, a);
    hide Owned, Staged, Balanced, Step, Enabled, CostAt;
    forall u | 0 <= u < |s.threads| ensures CostAt(Step(s, a), u) <= CostAt(s, u) {
      OtherCost(s, a, u);
    }
    EffortDrops(s, Step(s, a), |s.threads|);
  }

  lemma StoredAfter(s: State, a: Action)
    requires Inv(s) && Enabled(s, a) && (a.DrainOne? || a.DestroyOne?)
    ensures Shaped(Step(s, a)) && Stored(Step(s, a)) == Stored(s) - 1
  {
    StepInv(s, a);
    TransferIsPossible(s, a);
    QueuedUpdated(s.items, |s.at|, TransferOf(s, a), AllQueues(s));
    KeptUpdated(s.items, |s.at|, TransferOf(s, a), s.shards);
    hide Owned, Staged, Balanced, ItemsAfter, AtAfter, PhaseAfter, CountersAfter, Queued, Kept;
  }

  lemma StageStep(s: State)
    requires Inv(s) && s.shuttingDown && Waiters(s.threads) == 0 && StageDone(s)
    ensures Enabled(s, NextStage) && Nearer(s, Step(s, NextStage))
  {
    StepInv(s, NextStage);
    NoNewWaiter(s, NextStage);
    StageKept(s, NextStage);
  }

  lemma AnyStep(s: State) returns (a: Action)
    requires Inv(s) && s.shuttingDown && Completable(s) && s.stage < FINISHED
    ensures Enabled(s, a) && Nearer(s, Step(s, a))
  {
    if Waiters(s.threads) > 0 {
      a := CopyStep(s);
    } else if StageDone(s) {
      StageStep(s);
      a := NextStage;
    } else if s.stage < DRAINING {
      var t: nat :| t < |s.threads| && JoinStage(s.threads[t].role) == s.stage && s.threads[t].phase != Exited;
      a := ThreadStep(s, t);
    } else if s.stage == DRAINING {
      var q: nat :| q < AllQueues(s) && s.items[Queue(q)] != [];
      a := DrainOne(q);
      FreeStep(s, a);
    } else {
      var j: nat :| j < s.shards && s.items[Shard(j)] != [];
      a := DestroyOne(j);
      FreeStep(s, a);
    }
  }

  lemma {:induction false} Completes(s: State) returns (actions: seq<Action>)
    requires Inv(s) && s.shuttingDown && Completable(s)
    ensures CanRun(s, actions) && After(s, actions).stage == FINISHED
    decreases FINISHED - s.stage, Effort(s, |s.threads|), Stored(s)
  {
    actions := [];
    if s.stage < FINISHED {
      var a := AnyStep(s);
      NearerDecreases(s, Step(s, a));
      hide Nearer, Enabled, Step, Shaped, Owned, Staged, Balanced, Completable;
      var rest := Completes(Step(s, a));
      actions := [a] + rest;
      assert actions[1..] == rest;
    } else {
      LastStage(s);
    }
  }

  lemma NearerDecreases(s: State, r: State)
    requires Nearer(s, r)
    ensures Inv(r) && r.shuttingDown && Completable(r) && r.stage <= FINISHED
    ensures r.stage > s.stage || (r.stage == s.stage && |r.threads| == |s.threads|
        && (Effort(r, |r.threads|) < Effort(s, |s.threads|)
          || (Effort(r, |r.threads|) == Effort(s, |s.threads|) && Stored(r) < Stored(s))))
  {
    LastStage(r);
  }

  lemma LastStage(s: State)
    requires Inv(s)
    ensures s.stage <= FINISHED
  {
  }

  /** No steps whatever complete shutdown. */
  ghost predicate Hangs(s: State)
    requires Inv(s)
  {
    forall actions | CanRun(s, actions) :: After(s, actions).stage != FINISHED
  }

  lemma NothingCompletes(s: State)
    requires Inv(s) && s.shuttingDown && !Completable(s)
    ensures Hangs(s)
  {
    forall more | CanRun(s, more) ensures After(s, more).stage != FINISHED {
      StuckForever(s, more);
    }
  }

  /** Once shutdown is requested it can be completed, by some order of steps, exactly when the copies that decoders
      hold for the firewall log have room in its queue, counting one place for each of its writers that waits for
      input. Otherwise no order of steps completes it. */
  lemma ShutdownCompletes(s: State)
    requires Inv(s) && s.shuttingDown
    ensures (exists actions :: CanRun(s, actions) && After(s, actions).stage == FINISHED) <==> Completable(s)
  {
    if Completable(s) {
      var actions := Completes(s);
    } else {
      NothingCompletes(s);
    }
  }

  /** A decoder with a copy in hand, a full firewall queue and no writer under way. */
  lemma FullAndWaiting(s: State, l: Line, v: Sketch)
    requires Drawn(s, l, v) && v.decode == Copying(Has) && v.fw + 1 == s.size
    ensures !Completable(s)
  {
    hide Owned, Staged, Balanced;
    assert Room(s) == 0;
    AtLeastOneWaits(s.threads, l.decode);
    NobodyHelps(s.threads);
  }

  lemma {:induction false} AtLeastOneWaits(threads: seq<Thread>, t: nat)
    requires t < |threads| && Waits(threads[t])
    ensures Waiters(threads) > 0
  {
    if t > 0 {
      AtLeastOneWaits(threads[1..], t - 1);
    }
  }

  lemma {:induction false} NobodyHelps(threads: seq<Thread>)
    requires forall t | 0 <= t < |threads| && threads[t].role.Writer? :: threads[t].phase == Top
    ensures Helpers(threads) == 0
  {
    if threads != [] {
      assert forall t | 0 <= t < |threads[1..]| :: threads[1..][t] == threads[t + 1];
      NobodyHelps(threads[1..]);
    }
  }

  lemma RequestKeepsStuck(s: State)
    requires Inv(s) && !Completable(s)
    ensures Enabled(s, RequestShutdown)
    ensures var r := Step(s, RequestShutdown); Inv(r) && r.shuttingDown && !Completable(r)
  {
    StepInv(s, RequestShutdown);
  }

  /** A decoder with a copy for a full firewall queue. */
  lemma ComesToFull(s: State, l: Line) returns (done: seq<Action>)
    requires Initial(s) && OnLine(s, l)
    ensures Inv(s) && CanRun(s, done) && NoFailure(done) && Inv(After(s, done)) && !Completable(After(s, done))
  {
    InitialComes(s, l);
    var n := s.size - 1;
    assert n > 0;
    hide Shaped, Owned, Staged, Balanced, Enabled, Step, Completable, Drawn, Comes;
    done := FillsBoth(s, [], l, 0);
    done := Copies(s, done, l, n);
    IsComing(s, done, l, Waiting(n, n).(decode := Copying(Has)));
    FullAndWaiting(After(s, done), l, Waiting(n, n).(decode := Copying(Has)));
  }

  /** Every daemon gets there. From any start, with a receiver, a demultiplexer, a decoder and a shard, there is a
      run in which no push fails and then shutdown is requested, and after which no steps whatever complete it. */
  lemma ShutdownMayHang(s: State, l: Line) returns (actions: seq<Action>)
    requires Initial(s) && OnLine(s, l)
    ensures Inv(s) && CanRun(s, actions) && NoFailure(actions) && After(s, actions).shuttingDown
    ensures Hangs(After(s, actions))
  {
    var done := ComesToFull(s, l);
    hide Initial, OnLine, Shaped, Owned, Staged, Balanced, Enabled, Step, Completable, After, CanRun;
    RequestKeepsStuck(After(s, done));
    RunsOn(s, done, RequestShutdown);
    actions := done + [RequestShutdown];
    NothingCompletes(After(s, actions));
  }

  lemma IsComing(s: State, done: seq<Action>, l: Line, v: Sketch)
    requires Comes(s, done, l, v)
    ensures Inv(s) && CanRun(s, done) && Drawn(After(s, done), l, v) && After(s, done).size == s.size
    ensures Inv(After(s, done))
  {
  }
}
