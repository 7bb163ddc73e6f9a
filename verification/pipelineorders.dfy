/** Which item a step of the pipeline moves: the order that queues and histories keep, and the way an item takes. */
module PipelineOrders {
  import opened Events
  import opened Pipeline

  // -------------------------------------------------------------------------------------------
  // What a transfer does to one place

  lemma StepItems(s: State, a: Action)
    requires Inv(s) && Enabled(s, a)
    ensures Inv(Step(s, a)) && Step(s, a).shards == s.shards && Possible(s.items, TransferOf(s, a))
    ensures Step(s, a).items == ItemsAfter(s.items, |s.at|, TransferOf(s, a))
    ensures ByThread(a) ==> a.t < |s.threads| && Hand(a.t) in s.items
  {
    StepInv(s, a);
    TransferIsPossible(s, a);
    hide Owned, Staged, Balanced, ItemsAfter, AtAfter, CountersAfter, PhaseAfter, TransferOf;
  }

  lemma Elsewhere(items: map<Place, seq<Id>>, next: nat, x: Transfer, p: Place)
    requires Possible(items, x) && p in items
    requires (x.Moves? ==> p != x.from && p != x.to) && (x.Makes? ==> p != x.to)
    ensures p in ItemsAfter(items, next, x) && ItemsAfter(items, next, x)[p] == items[p]
  {
  }

  lemma MovedOver(items: map<Place, seq<Id>>, next: nat, x: Transfer)
    requires Possible(items, x) && x.Moves?
    ensures var r, id := ItemsAfter(items, next, x), items[x.from][x.i];
      && x.from in r && x.to in r
      && r[x.to] == (if x.front then [id] + items[x.to] else items[x.to] + [id])
      && (x.i == 0 ==> r[x.from] == items[x.from][1..])
      && (x.i == |items[x.from]| - 1 ==> r[x.from] == items[x.from][..x.i])
  {
  }

  // -------------------------------------------------------------------------------------------
  // Histories

  predicate ByMatch(s: State, a: Action, j: nat) {
    ByThread(a) && a.t < |s.threads| && s.threads[a.t].role == Match(j)
  }

  /** An event enters its shard's history at the front, eviction takes the last one into the hand of the thread and
      never the only one. Nothing else changes a history before the shards are destroyed. */
  lemma HistoryStep(s: State, a: Action, j: nat)
    requires Inv(s) && Enabled(s, a) && j < s.shards
    ensures var r, was := Step(s, a), s.items[Shard(j)];
      && Shard(j) in r.items && r.shards == s.shards
      && if a.Register? && ByMatch(s, a, j) then
           s.items[Hand(a.t)] != [] && r.items[Shard(j)] == [s.items[Hand(a.t)][0]] + was
         else if a.Evict? && ByMatch(s, a, j) then
           && |was| > 1 && r.items[Shard(j)] == was[..|was| - 1]
           && r.items[Hand(a.t)] == s.items[Hand(a.t)] + [was[|was| - 1]]
         else a == DestroyOne(j) || r.items[Shard(j)] == was
  {
    StepItems(s, a);
    ShardIsThere(s, j);
    HistoryMoves(s, a, j);
    hide *;
    var x := TransferOf(s, a);
    if (a.Register? || a.Evict?) && ByMatch(s, a, j) {
      MovedOver(s.items, |s.at|, x);
    } else if a != DestroyOne(j) {
      Elsewhere(s.items, |s.at|, x, Shard(j));
    } else {
      MovedOver(s.items, |s.at|, x);
    }
  }

  lemma HistoryMoves(s: State, a: Action, j: nat)
    requires Inv(s) && Enabled(s, a) && j < s.shards
    ensures Possible(s.items, TransferOf(s, a))
    ensures ByMatch(s, a, j) ==> ByThread(a) && a.t < |s.threads|
    ensures var x := TransferOf(s, a);
      if a.Register? && ByMatch(s, a, j) then x == Moves(Hand(a.t), 0, Shard(j), true)
      else if a.Evict? && ByMatch(s, a, j) then
        x == Moves(Shard(j), |s.items[Shard(j)]| - 1, Hand(a.t), false) && |s.items[Shard(j)]| > 1
      else if a == DestroyOne(j) then x.Moves? && x.from == Shard(j)
      else (x.Moves? ==> x.from != Shard(j) && x.to != Shard(j)) && (x.Makes? ==> x.to != Shard(j))
  {
    TransferIsPossible(s, a);
    hide Owned, Staged, Balanced, Fits, Places;
  }

  /** The items that are registered in a shard, newest first. */
  ghost function Registered(s: State, actions: seq<Action>, j: nat): seq<Id>
    requires Inv(s) && CanRun(s, actions)
    decreases |actions|
  {
    if actions == [] then []
    else
      StepInv(s, actions[0]);
      Registered(Step(s, actions[0]), actions[1..], j) +
        if actions[0].Register? && ByMatch(s, actions[0], j) && s.items[Hand(actions[0].t)] != []
        then [s.items[Hand(actions[0].t)][0]] else []
  }

  /** Over any run, until the shards are destroyed, a history is what was registered on top of what was there, without
      a number of the oldest. */
  lemma {:induction false} HistoryOverRun(s: State, actions: seq<Action>, j: nat) returns (m: nat)
    requires Inv(s) && CanRun(s, actions) && j < s.shards && DestroyOne(j) !in actions
    ensures var all, r := Registered(s, actions, j) + s.items[Shard(j)], After(s, actions);
      Shard(j) in r.items && m <= |all| && r.items[Shard(j)] == all[..m]
    decreases |actions|
  {
    if actions == [] {
      ShardIsThere(s, j);
      m := |s.items[Shard(j)]|;
    } else {
      ShardIsThere(s, j);
      var a := actions[0];
      StepInv(s, a);
      HistoryStep(s, a, j);
      m := HistoryOverRun(Step(s, a), actions[1..], j);
      RegisteredMore(s, actions, j);
      hide *;
      var later, was, now := Registered(Step(s, a), actions[1..], j), s.items[Shard(j)], Step(s, a).items[Shard(j)];
      if a.Register? && ByMatch(s, a, j) {
        Grouped(later, [s.items[Hand(a.t)][0]], was);
      } else if a.Evict? && ByMatch(s, a, j) {
        CutShorter(later, was, m);
      }
    }
  }

  lemma RegisteredMore(s: State, actions: seq<Action>, j: nat)
    requires Inv(s) && CanRun(s, actions) && j < s.shards && actions != []
    ensures var a := actions[0];
      && Enabled(s, a) && Inv(Step(s, a)) && CanRun(Step(s, a), actions[1..])
      && After(s, actions) == After(Step(s, a), actions[1..])
      && Registered(s, actions, j) ==
           if a.Register? && ByMatch(s, a, j) && s.items[Hand(a.t)] != []
           then Registered(Step(s, a), actions[1..], j) + [s.items[Hand(a.t)][0]]
           else Registered(Step(s, a), actions[1..], j)
  {
    StepInv(s, actions[0]);
    hide Owned, Staged, Balanced, Step, TransferOf;
  }

  lemma CutShorter(later: seq<Id>, was: seq<Id>, m: nat)
    requires was != [] && m <= |later + was[..|was| - 1]|
    ensures m <= |later + was| && (later + was[..|was| - 1])[..m] == (later + was)[..m]
  {
  }

  lemma Grouped<T>(a: seq<T>, b: seq<T>, c: seq<T>)
    ensures a + (b + c) == (a + b) + c
  {
  }

  lemma ShardIsThere(s: State, j: nat)
    requires Inv(s) && j < s.shards
    ensures Shard(j) in s.items
  {
  }

  // -------------------------------------------------------------------------------------------
  // The event just listed

  /** Each shard has one match thread. */
  ghost predicate OneThreadEach(s: State) {
    forall t, u | 0 <= t < |s.threads| && 0 <= u < |s.threads| && s.threads[t].role.Match?
                  && s.threads[t].role == s.threads[u].role :: t == u
  }

  /** From its registration until its thread stops evicting, whatever any thread does, an event is the first of its
      shard's history. */
  lemma {:induction false} ListedStaysFirst(s: State, actions: seq<Action>, t: nat, j: nat, x: Id)
    requires Inv(s) && OneThreadEach(s) && CanRun(s, actions) && StopEvicting(t) !in actions
    requires t < |s.threads| && s.threads[t] == Thread(Match(j), Evicting) && j < s.shards
    requires Shard(j) in s.items && s.items[Shard(j)] != [] && s.items[Shard(j)][0] == x
    ensures var r := After(s, actions);
      && Shard(j) in r.items && r.items[Shard(j)] != [] && r.items[Shard(j)][0] == x
      && |r.threads| == |s.threads| && r.threads[t] == s.threads[t]
    decreases |actions|
  {
    hide Shaped, Owned, Staged, Balanced, Enabled, Step;
    if actions != [] {
      assert actions[0] in actions;
      StepInv(s, actions[0]);
      HistoryStep(s, actions[0], j);
      EvictingGoesOn(s, actions[0], t, j);
      ListedStaysFirst(Step(s, actions[0]), actions[1..], t, j, x);
    }
  }

  /** A thread inside the list lock takes no step but another eviction, and no other registers in its shard. */
  lemma EvictingGoesOn(s: State, a: Action, t: nat, j: nat)
    requires Inv(s) && Enabled(s, a) && OneThreadEach(s) && a != StopEvicting(t)
    requires t < |s.threads| && s.threads[t] == Thread(Match(j), Evicting)
    ensures var r := Step(s, a);
      && OneThreadEach(r) && |r.threads| == |s.threads| && r.threads[t] == s.threads[t] && a != DestroyOne(j)
      && !(a.Register? && ByMatch(s, a, j))
  {
    hide Owned, Balanced, ItemsAfter, AtAfter, CountersAfter, TransferOf, Places, QueuesOk;
  }

  /** So the event that a thread registers is there when it stops evicting. */
  lemma RegisteredStaysFirst(s: State, t: nat, actions: seq<Action>)
    requires Inv(s) && OneThreadEach(s) && Enabled(s, Register(t)) && StopEvicting(t) !in actions
    ensures t < |s.threads| && s.threads[t].role.Match? && Inv(Step(s, Register(t)))
    ensures Hand(t) in s.items && s.items[Hand(t)] != []
    ensures CanRun(Step(s, Register(t)), actions) ==>
      var r, j := After(Step(s, Register(t)), actions), Shard(s.threads[t].role.shard);
      j in r.items && r.items[j] != [] && r.items[j][0] == s.items[Hand(t)][0]
  {
    StepInv(s, Register(t));
    RegisterLists(s, t);
    hide Shaped, Owned, Staged, Balanced, Enabled, Step;
    if CanRun(Step(s, Register(t)), actions) {
      ListedStaysFirst(Step(s, Register(t)), actions, t, s.threads[t].role.shard, s.items[Hand(t)][0]);
    }
  }

  lemma RegisterLists(s: State, t: nat)
    requires Inv(s) && OneThreadEach(s) && Enabled(s, Register(t))
    ensures t < |s.threads| && s.threads[t].role.Match? && Hand(t) in s.items && s.items[Hand(t)] != []
    ensures var j, r := s.threads[t].role.shard, Step(s, Register(t));
      && j < s.shards && r.shards == s.shards && Shard(j) in r.items
      && r.items[Shard(j)] != [] && r.items[Shard(j)][0] == s.items[Hand(t)][0]
      && |r.threads| == |s.threads| && r.threads[t] == Thread(Match(j), Evicting) && OneThreadEach(r)
  {
    HistoryStep(s, Register(t), s.threads[t].role.shard);
    hide Owned, Balanced, Staged, ItemsAfter, AtAfter, CountersAfter, TransferOf;
  }

  // -------------------------------------------------------------------------------------------
  // Queues

  /** What a step puts into a queue: the item in the hand of the thread, or the copy it made last. */
  ghost function PushedNow(s: State, a: Action, q: nat): seq<Id>
    requires Inv(s) && Enabled(s, a)
  {
    if (a.Push? || a.Archive?) && a.q == q then s.items[Hand(a.t)]
    else if a.PushCopy? && a.q == q then
      var hand := s.items[Hand(a.t)];
      if hand == [] then [] else [hand[|hand| - 1]]
    else []
  }

  /** What a step takes out of a queue: the item that is the last in the hand of the thread then, or the last freed. */
  ghost function TakenNow(s: State, a: Action, q: nat): seq<Id>
    requires Inv(s) && Enabled(s, a)
  {
    StepInv(s, a);
    var r := Step(s, a);
    if a.Pop? && Input(s, s.threads[a.t].role) == q then LastOf(r.items[Hand(a.t)])
    else if a == DrainOne(q) then LastOf(r.items[Gone])
    else []
  }

  function LastOf(ids: seq<Id>): seq<Id> {
    if ids == [] then [] else [ids[|ids| - 1]]
  }

  /** What was in a queue and what a step puts in is what it takes out and what is in then, in this order. */
  ghost predicate InOrder(s: State, a: Action, q: nat)
    requires Inv(s) && Enabled(s, a)
  {
    StepInv(s, a);
    var r := Step(s, a);
    && Queue(q) in s.items && Queue(q) in r.items && AllQueues(r) == AllQueues(s)
    && s.items[Queue(q)] + PushedNow(s, a, q) == TakenNow(s, a, q) + r.items[Queue(q)]
  }

  lemma QueueStep(s: State, a: Action, q: nat)
    requires Inv(s) && Enabled(s, a) && q < AllQueues(s)
    ensures InOrder(s, a, q)
  {
    ActsFor(s, a);
    hide *;
    if (a.Push? || a.Archive? || a.PushCopy?) && a.q == q {
      QueueGrows(s, a, q);
    } else if a.Pop? && Input(s, s.threads[a.t].role) == q {
      QueueShrinks(s, a, q, Hand(a.t));
    } else if a == DrainOne(q) {
      QueueShrinks(s, a, q, Gone);
    } else {
      QueueStays(s, a, q);
    }
  }

  lemma ActsFor(s: State, a: Action)
    requires Inv(s) && Enabled(s, a)
    ensures a.Pop? ==> a.t < |s.threads|
  {
    hide Owned, Staged, Balanced;
  }

  lemma QueueGrows(s: State, a: Action, q: nat)
    requires Inv(s) && Enabled(s, a) && q < AllQueues(s) && (a.Push? || a.Archive? || a.PushCopy?) && a.q == q
    ensures InOrder(s, a, q)
  {
    StepItems(s, a);
    QueueIsThere(s, q);
    PushMoves(s, a);
    PushIsAll(s, a, q);
    hide *;
    MovedOver(s.items, |s.at|, TransferOf(s, a));
    var hand := s.items[Hand(a.t)];
    IsInOrder(s, a, q, [hand[|hand| - 1]], [], s.items[Queue(q)] + [hand[|hand| - 1]]);
  }

  lemma PushIsAll(s: State, a: Action, q: nat)
    requires Inv(s) && Enabled(s, a) && (a.Push? || a.Archive? || a.PushCopy?) && a.q == q
    requires Hand(a.t) in s.items && s.items[Hand(a.t)] != [] && (!a.PushCopy? ==> |s.items[Hand(a.t)]| == 1)
    ensures PushedNow(s, a, q) == [s.items[Hand(a.t)][|s.items[Hand(a.t)]| - 1]] && TakenNow(s, a, q) == []
  {
    hide Inv, Enabled, Step;
  }

  lemma IsInOrder(s: State, a: Action, q: nat, pushed: seq<Id>, taken: seq<Id>, now: seq<Id>)
    requires Inv(s) && Enabled(s, a) && Inv(Step(s, a)) && Step(s, a).shards == s.shards
    requires Queue(q) in s.items && Queue(q) in Step(s, a).items && Step(s, a).items[Queue(q)] == now
    requires PushedNow(s, a, q) == pushed && TakenNow(s, a, q) == taken && s.items[Queue(q)] + pushed == taken + now
    ensures InOrder(s, a, q)
  {
    hide Inv, Enabled, Step, PushedNow, TakenNow;
  }

  lemma PushMoves(s: State, a: Action)
    requires Inv(s) && Enabled(s, a) && (a.Push? || a.Archive? || a.PushCopy?)
    ensures Hand(a.t) in s.items && s.items[Hand(a.t)] != [] && (!a.PushCopy? ==> |s.items[Hand(a.t)]| == 1)
    ensures TransferOf(s, a) == Moves(Hand(a.t), |s.items[Hand(a.t)]| - 1, Queue(a.q), false)
  {
    assert Fits(s.threads[a.t].role, s.threads[a.t].phase, |s.items[Hand(a.t)]|);
    hide Owned, Staged, Balanced;
  }

  lemma QueueShrinks(s: State, a: Action, q: nat, to: Place)
    requires Inv(s) && Enabled(s, a) && q < AllQueues(s)
    requires (a.Pop? && Input(s, s.threads[a.t].role) == q && to == Hand(a.t)) || (a == DrainOne(q) && to == Gone)
    ensures InOrder(s, a, q)
  {
    StepItems(s, a);
    ItemTaken(s, a, q, to);
    hide *;
    var was, taken := s.items[Queue(q)], TakenNow(s, a, q);
    FirstOut(was, taken);
    IsInOrder(s, a, q, [], taken, was[1..]);
  }

  lemma ItemTaken(s: State, a: Action, q: nat, to: Place)
    requires Inv(s) && Enabled(s, a) && q < AllQueues(s)
    requires (a.Pop? && Input(s, s.threads[a.t].role) == q && to == Hand(a.t)) || (a == DrainOne(q) && to == Gone)
    ensures Queue(q) in s.items && s.items[Queue(q)] != []
    ensures var was, r := s.items[Queue(q)], Step(s, a).items;
      && Queue(q) in r && r[Queue(q)] == was[1..]
      && PushedNow(s, a, q) == [] && |TakenNow(s, a, q)| == 1 && TakenNow(s, a, q)[0] == was[0]
  {
    StepItems(s, a);
    TakeMoves(s, a, q, to);
    hide *;
    MovedOver(s.items, |s.at|, TransferOf(s, a));
    TakeIsAll(s, a, q, to);
  }

  lemma FirstOut(was: seq<Id>, taken: seq<Id>)
    requires was != [] && |taken| == 1 && taken[0] == was[0]
    ensures was + [] == taken + was[1..]
  {
  }

  lemma TakeMoves(s: State, a: Action, q: nat, to: Place)
    requires Inv(s) && Enabled(s, a) && q < AllQueues(s)
    requires (a.Pop? && Input(s, s.threads[a.t].role) == q && to == Hand(a.t)) || (a == DrainOne(q) && to == Gone)
    ensures TransferOf(s, a) == Moves(Queue(q), 0, to, false)
    ensures Queue(q) in s.items && s.items[Queue(q)] != [] && to in s.items
  {
    hide Owned, Staged, Balanced;
  }

  lemma TakeIsAll(s: State, a: Action, q: nat, to: Place)
    requires Inv(s) && Enabled(s, a) && Inv(Step(s, a))
    requires (a.Pop? && Input(s, s.threads[a.t].role) == q && to == Hand(a.t)) || (a == DrainOne(q) && to == Gone)
    requires to in Step(s, a).items && Step(s, a).items[to] != []
    ensures PushedNow(s, a, q) == [] && TakenNow(s, a, q) == [Step(s, a).items[to][|Step(s, a).items[to]| - 1]]
  {
    hide Inv, Enabled, Step;
  }

  lemma QueueStays(s: State, a: Action, q: nat)
    requires Inv(s) && Enabled(s, a) && q < AllQueues(s)
    requires !((a.Push? || a.Archive? || a.PushCopy?) && a.q == q)
    requires !(a.Pop? && Input(s, s.threads[a.t].role) == q) && a != DrainOne(q)
    ensures InOrder(s, a, q)
  {
    StepItems(s, a);
    QueueIsThere(s, q);
    OtherMoves(s, a, q);
    OtherIsNothing(s, a, q);
    hide *;
    Elsewhere(s.items, |s.at|, TransferOf(s, a), Queue(q));
    assert s.items[Queue(q)] + [] == [] + s.items[Queue(q)];
    IsInOrder(s, a, q, [], [], s.items[Queue(q)]);
  }

  lemma OtherIsNothing(s: State, a: Action, q: nat)
    requires Inv(s) && Enabled(s, a) && a != DrainOne(q)
    requires !((a.Push? || a.Archive? || a.PushCopy?) && a.q == q)
    requires a.Pop? ==> a.t < |s.threads| && Input(s, s.threads[a.t].role) != q
    ensures PushedNow(s, a, q) == [] && TakenNow(s, a, q) == []
  {
    hide Inv, Enabled, Step;
  }

  lemma OtherMoves(s: State, a: Action, q: nat)
    requires Inv(s) && Enabled(s, a) && q < AllQueues(s)
    requires !((a.Push? || a.Archive? || a.PushCopy?) && a.q == q)
    requires !(a.Pop? && Input(s, s.threads[a.t].role) == q) && a != DrainOne(q)
    ensures var x := TransferOf(s, a);
      (x.Moves? ==> x.from != Queue(q) && x.to != Queue(q)) && (x.Makes? ==> x.to != Queue(q))
  {
    hide Owned, Staged, Balanced, Fits, Places;
  }

  ghost function PushedTo(s: State, actions: seq<Action>, q: nat): seq<Id>
    requires Inv(s) && CanRun(s, actions)
    decreases |actions|
  {
    if actions == [] then []
    else StepInv(s, actions[0]); PushedNow(s, actions[0], q) + PushedTo(Step(s, actions[0]), actions[1..], q)
  }

  ghost function TakenFrom(s: State, actions: seq<Action>, q: nat): seq<Id>
    requires Inv(s) && CanRun(s, actions)
    decreases |actions|
  {
    if actions == [] then []
    else StepInv(s, actions[0]); TakenNow(s, actions[0], q) + TakenFrom(Step(s, actions[0]), actions[1..], q)
  }

  /** First in, first out: over any run what was in a queue and what was put into it is what was taken out and what is
      in it then, in this order. */
  lemma {:induction false} FirstInFirstOut(s: State, actions: seq<Action>, q: nat)
    requires Inv(s) && CanRun(s, actions) && q < AllQueues(s)
    ensures var r := After(s, actions);
      && Queue(q) in s.items && Queue(q) in r.items
      && s.items[Queue(q)] + PushedTo(s, actions, q) == TakenFrom(s, actions, q) + r.items[Queue(q)]
    decreases |actions|
  {
    if actions == [] {
      QueueIsThere(s, q);
    } else {
      StepInv(s, actions[0]);
      QueueStep(s, actions[0], q);
      FirstInFirstOut(Step(s, actions[0]), actions[1..], q);
      hide Shaped, Owned, Staged, Balanced, Enabled, Step, PushedNow, TakenNow;
      var r := Step(s, actions[0]);
      Grouped(s.items[Queue(q)], PushedNow(s, actions[0], q), PushedTo(r, actions[1..], q));
      Grouped(TakenNow(s, actions[0], q), r.items[Queue(q)], PushedTo(r, actions[1..], q));
      Grouped(TakenNow(s, actions[0], q), TakenFrom(r, actions[1..], q), After(s, actions).items[Queue(q)]);
    }
  }

  lemma QueueIsThere(s: State, q: nat)
    requires Inv(s) && q < AllQueues(s)
    ensures Queue(q) in s.items
  {
  }

  // -------------------------------------------------------------------------------------------
  // The item in hand

  predicate AtWork(phase: Phase) {
    phase == Has || phase == Copying(Has) || phase == Judged || phase == Done
  }

  /** The thread works on the item `x`, alone or beside a copy it made of it. */
  ghost predicate WorksOn(s: State, t: nat, x: Id) {
    && t < |s.threads| && AtWork(s.threads[t].phase)
    && Hand(t) in s.items && s.items[Hand(t)] != [] && s.items[Hand(t)][0] == x
  }

  /** The steps in which a thread parts with the item it works on. */
  predicate PartsWith(a: Action, t: nat) {
    ByThread(a) && a.t == t
      && (a.Push? || a.PushFails? || a.Reject? || a.Register? || a.Archive? || a.Finish? || a.Write?)
  }

  /** Until such a step, whatever any thread does, the thread keeps that item: a copy may go to a writer, the item
      itself does not. */
  lemma {:induction false} ItemStaysInHand(s: State, actions: seq<Action>, t: nat, x: Id)
    requires Inv(s) && CanRun(s, actions) && WorksOn(s, t, x)
    requires forall a | a in actions :: !PartsWith(a, t)
    ensures WorksOn(After(s, actions), t, x)
    decreases |actions|
  {
    hide Shaped, Owned, Staged, Balanced, Enabled, Step, WorksOn, PartsWith;
    if actions != [] {
      assert actions[0] in actions;
      StepInv(s, actions[0]);
      WorkGoesOn(s, actions[0], t, x);
      ItemStaysInHand(Step(s, actions[0]), actions[1..], t, x);
    }
  }

  lemma WorkGoesOn(s: State, a: Action, t: nat, x: Id)
    requires Inv(s) && Enabled(s, a) && WorksOn(s, t, x) && !PartsWith(a, t)
    ensures WorksOn(Step(s, a), t, x)
  {
    StepItems(s, a);
    ThreadAfter(s, a, t);
    if ByThread(a) && a.t == t {
      OwnWork(s, a, t);
    } else {
      OthersKeepHands(s, a, t);
    }
    hide Inv, Enabled, Step, ItemsAfter, Possible, TransferOf, PhaseAfter, AtWork;
    var y := TransferOf(s, a);
    if y.Moves? && y.from == Hand(t) {
      MovedOver(s.items, |s.at|, y);
    } else if y.Makes? && y.to == Hand(t) {
      MadeNew(s.items, |s.at|, y);
    } else {
      Elsewhere(s.items, |s.at|, y, Hand(t));
    }
  }

  lemma MadeNew(items: map<Place, seq<Id>>, next: nat, x: Transfer)
    requires Possible(items, x) && x.Makes?
    ensures x.to in ItemsAfter(items, next, x) && ItemsAfter(items, next, x)[x.to] == items[x.to] + [next]
  {
  }

  lemma ThreadAfter(s: State, a: Action, t: nat)
    requires Inv(s) && Enabled(s, a) && t < |s.threads|
    ensures var r := Step(s, a);
      && |r.threads| == |s.threads|
      && r.threads[t] == if ByThread(a) && a.t == t then s.threads[t].(phase := PhaseAfter(s, a)) else s.threads[t]
  {
    hide Owned, Staged, Balanced, ItemsAfter, AtAfter, CountersAfter, PhaseAfter, TransferOf;
  }

  lemma OwnWork(s: State, a: Action, t: nat)
    requires Inv(s) && Enabled(s, a) && ByThread(a) && a.t == t < |s.threads| && Hand(t) in s.items
    requires AtWork(s.threads[t].phase) && !PartsWith(a, t)
    ensures AtWork(PhaseAfter(s, a))
    ensures var x := TransferOf(s, a);
      || x == Nothing || x == Makes(Hand(t))
      || (x.Moves? && x.from == Hand(t) && x.to != Hand(t) && x.i == 1 && |s.items[Hand(t)]| == 2)
  {
    assert Fits(s.threads[t].role, s.threads[t].phase, |s.items[Hand(t)]|);
    hide Owned, Staged, Balanced;
  }

  // -------------------------------------------------------------------------------------------
  // The way of an item

  /** How far a place is on the way: the socket's queue is 1, the decoders' are 2 to 5 by number and level 3, the
      shards' level 5, history and writers' queues level 7; a thread is between its input and its output. */
  function Level(s: State, p: Place): nat
    requires p.Hand? ==> p.t < |s.threads|
  {
    match p
    case Queue(q) => if q == 0 then 1 else if q < 5 then 3 else if q < 5 + s.shards then 5 else 7
    case Shard(_) => 7
    case Hand(t) =>
      (match s.threads[t].role
       case Recv => 0
       case Demux => 2
       case Decode(_) => 4
       case Match(_) => 6
       case Writer(_) => 8)
    case Gone => 9
  }

  /** Items go forward one stage at a time or are freed. The exceptions are the events evicted from a history, which
      their thread takes back to free them, and a decoder's copy, which goes to the firewall writers. A decoder takes
      its own kind's items, a match thread its own shard's, a writer its own queue's. */
  lemma ItemsGoForward(s: State, a: Action)
    requires Inv(s) && Enabled(s, a)
    ensures var x := TransferOf(s, a);
      match x
      case Nothing => true
      case Makes(to) => to.Hand? && (a.Receive? || a.Copy?)
      case Moves(from, _, to, _) =>
        && (from.Hand? ==> from.t < |s.threads|) && (to.Hand? ==> to.t < |s.threads|)
        && (to == Gone
            || Level(s, to) == Level(s, from) + 1
            || (a.Evict? && from == Shard(s.threads[a.t].role.shard) && to == Hand(a.t))
            || (a.PushCopy? && s.threads[a.t].role.Decode? && to == Queue(5 + s.shards + 3)))
        && (a.Pop? ==>
              && from.Queue?
              && (match s.threads[a.t].role
                  case Recv => false
                  case Demux => from.q == 0
                  case Decode(kind) => from.q == 1 + kind
                  case Match(j) => from.q == 5 + j
                  case Writer(w) => from.q == 5 + s.shards + w))
        && (a.Register? ==> to == Shard(s.threads[a.t].role.shard))
  {
    hide Owned, Staged, Balanced;
  }

  /** A queue is shut down only when every thread that puts items into it is gone: those of the level before it, and
      for the writers' queues the decoders too. */
  lemma ClosedIsUnfed(s: State, q: nat, t: nat)
    requires Inv(s) && q in s.closed && t < |s.threads|
    requires Level(s, Hand(t)) + 1 == Level(s, Queue(q)) || (q >= 5 + s.shards && s.threads[t].role.Decode?)
    ensures s.threads[t].phase == Exited
  {
    hide Owned, Balanced;
  }

  // -------------------------------------------------------------------------------------------
  // The counters

  /** How many of these steps are of a kind. */
  function Number(actions: seq<Action>, kind: Action -> bool): nat {
    if actions == [] then 0 else (if kind(actions[0]) then 1 else 0) + Number(actions[1..], kind)
  }

  /** Each counter counts the steps that are named after it, and nothing else. */
  lemma {:induction false} CountersCount(s: State, actions: seq<Action>)
    requires Inv(s) && CanRun(s, actions)
    ensures var n := After(s, actions).n;
      && n.received == s.n.received + Number(actions, (a: Action) => a.Receive?)
      && n.processed == s.n.processed + Number(actions, (a: Action) => a.CountProcessed?)
      && n.dropped == s.n.dropped + Number(actions, (a: Action) => a.CountDrop?)
      && n.shardDropped == s.n.shardDropped + Number(actions, (a: Action) => a.CountShardDrop?)
      && n.rejected == s.n.rejected + Number(actions, (a: Action) => a.Reject?)
    decreases |actions|
  {
    if actions != [] {
      CounterStep(s, actions[0]);
      StepInv(s, actions[0]);
      hide Shaped, Owned, Staged, Balanced, Enabled, Step;
      CountersCount(Step(s, actions[0]), actions[1..]);
    }
  }

  lemma CounterStep(s: State, a: Action)
    requires Inv(s) && Enabled(s, a)
    ensures var n, m := s.n, Step(s, a).n;
      && m.received == n.received + (if a.Receive? then 1 else 0)
      && m.processed == n.processed + (if a.CountProcessed? then 1 else 0)
      && m.dropped == n.dropped + (if a.CountDrop? then 1 else 0)
      && m.shardDropped == n.shardDropped + (if a.CountShardDrop? then 1 else 0)
      && m.rejected == n.rejected + (if a.Reject? then 1 else 0)
  {
    hide Owned, Staged, Balanced, ItemsAfter, AtAfter, PhaseAfter, TransferOf;
  }

  /** Only decoders reject and count shard drops, only match threads process, list and archive, only writers write. */
  lemma EverybodyItsPart(s: State, a: Action)
    requires Inv(s) && Enabled(s, a) && ByThread(a)
    ensures a.t < |s.threads|
    ensures a.Receive? ==> s.threads[a.t].role.Recv?
    ensures a.Reject? || a.TestDrop? || a.CountShardDrop? ==> s.threads[a.t].role.Decode?
    ensures a.CountProcessed? || a.Register? || a.Evict? || a.FreeVictim? || a.Archive? || a.Judge? || a.Finish?
      ==> s.threads[a.t].role.Match?
    ensures a.Write? ==> s.threads[a.t].role.Writer?
    ensures a.Copy? ==> s.threads[a.t].role.Match? || s.threads[a.t].role.Decode?
    ensures a.PushFails? || a.CountDrop? ==> !s.threads[a.t].role.Match? && !s.threads[a.t].role.Writer?
  {
    assert Fits(s.threads[a.t].role, s.threads[a.t].phase, |s.items[Hand(a.t)]|);
    hide Owned, Staged, Balanced;
  }

  // -------------------------------------------------------------------------------------------
  // What shutdown changes

  /** Until shutdown is requested no thread ends. */
  lemma NobodyEndsBefore(s: State, a: Action)
    requires Inv(s) && Enabled(s, a) && ByThread(a) && Step(s, a).threads[a.t].phase == Exited
    ensures s.shuttingDown
  {
    hide Owned, Balanced, ItemsAfter, AtAfter, CountersAfter, TransferOf;
    assert Fits(s.threads[a.t].role, s.threads[a.t].phase, |s.items[Hand(a.t)]|);
  }

  /** Over a run: who has ended has seen shutdown requested. */
  lemma {:induction false} ThreadsKeepRunning(s: State, actions: seq<Action>, t: nat)
    requires Inv(s) && CanRun(s, actions) && t < |s.threads| && s.threads[t].phase != Exited
    requires !After(s, actions).shuttingDown
    ensures t < |After(s, actions).threads| && After(s, actions).threads[t].phase != Exited
    decreases |actions|
  {
    hide Shaped, Owned, Staged, Balanced, Enabled, Step;
    if actions != [] {
      StepInv(s, actions[0]);
      if Step(s, actions[0]).shuttingDown {
        RunKeepsShutdown(Step(s, actions[0]), actions[1..]);
      }
      StaysUp(s, actions[0], t);
      ThreadsKeepRunning(Step(s, actions[0]), actions[1..], t);
    }
  }

  lemma {:induction false} RunKeepsShutdown(s: State, actions: seq<Action>)
    requires Inv(s) && CanRun(s, actions) && s.shuttingDown
    ensures After(s, actions).shuttingDown
    decreases |actions|
  {
    hide Shaped, Owned, Staged, Balanced, Enabled, Step;
    if actions != [] {
      StepInv(s, actions[0]);
      StepThreads(s, actions[0]);
      RunKeepsShutdown(Step(s, actions[0]), actions[1..]);
    }
  }

  lemma StaysUp(s: State, a: Action, t: nat)
    requires Inv(s) && Enabled(s, a) && t < |s.threads| && s.threads[t].phase != Exited && !Step(s, a).shuttingDown
    ensures t < |Step(s, a).threads| && Step(s, a).threads[t].phase != Exited
  {
    hide Owned, Staged, Balanced, ItemsAfter, AtAfter, CountersAfter, TransferOf, PhaseAfter, EnabledFor, Fits;
    if ByThread(a) && a.t == t && Step(s, a).threads[t].phase == Exited {
      NobodyEndsBefore(s, a);
    }
  }

  /** Nothing is put into a queue that is shut down or full. */
  lemma OnlyOpenQueuesGrow(s: State, a: Action, q: nat)
    requires Inv(s) && Enabled(s, a) && q < AllQueues(s) && PushedNow(s, a, q) != []
    ensures q !in s.closed && |s.items[Queue(q)]| + 1 < s.size
  {
    hide Owned, Staged, Balanced, Fits;
  }

  /** A thread that waits for input goes on without any only if its queue is shut down and nothing is left in it. */
  lemma WaitingEndsEmpty(s: State, t: nat)
    requires Inv(s) && Enabled(s, Idle(t)) && s.threads[t].role != Recv
    ensures var q := Input(s, s.threads[t].role);
      q in s.closed && Queue(q) in s.items && s.items[Queue(q)] == []
  {
    hide Owned, Balanced, Fits;
  }

  /** A failed push to a shard is counted unless shutdown was requested by the time the decoder looks: from then on,
      with no decoder about to count one, none is counted any more. */
  lemma {:induction false} NoShardDropsAfterShutdown(s: State, actions: seq<Action>)
    requires Inv(s) && CanRun(s, actions) && s.shuttingDown
    requires forall t | 0 <= t < |s.threads| :: s.threads[t].phase != OwesShardDrop
    ensures After(s, actions).n.shardDropped == s.n.shardDropped
    decreases |actions|
  {
    hide Shaped, Owned, Staged, Balanced, Enabled, Step;
    if actions != [] {
      StepInv(s, actions[0]);
      CounterStep(s, actions[0]);
      NoneOwes(s, actions[0]);
      NoShardDropsAfterShutdown(Step(s, actions[0]), actions[1..]);
    }
  }

  lemma NoneOwes(s: State, a: Action)
    requires Inv(s) && Enabled(s, a) && s.shuttingDown
    requires forall t | 0 <= t < |s.threads| :: s.threads[t].phase != OwesShardDrop
    ensures !a.CountShardDrop? && Step(s, a).shuttingDown
    ensures forall t | 0 <= t < |Step(s, a).threads| :: Step(s, a).threads[t].phase != OwesShardDrop
  {
    if ByThread(a) {
      assert Fits(s.threads[a.t].role, s.threads[a.t].phase, |s.items[Hand(a.t)]|);
    }
    hide Owned, Staged, Balanced, ItemsAfter, AtAfter, CountersAfter, TransferOf;
  }

  /** Before that every one is. */
  lemma ShardDropIsCounted(s: State, t: nat)
    requires Inv(s) && Enabled(s, TestDrop(t)) && !s.shuttingDown
    ensures t < |s.threads| && Inv(Step(s, TestDrop(t))) && Enabled(Step(s, TestDrop(t)), CountShardDrop(t))
    ensures !Enabled(Step(s, TestDrop(t)), Look(t)) && !Enabled(Step(s, TestDrop(t)), CountDrop(t))
  {
    StepInv(s, TestDrop(t));
    hide Owned, Staged, Balanced, ItemsAfter, AtAfter, CountersAfter;
  }
}
