/**
 The threaded pipeline as a transition system: receiver, demultiplexers, decoders, match shards and
 writers pass items along bounded queues, count what they drop, and are shut down stage by stage.
 An item is a received message together with the event made from it, or a copy made for a writer.
 */
module Pipeline {
  import opened Events

  type Id = nat

  /** Everything that can own an item. `Gone` lists the items freed so far. */
  datatype Place = Queue(q: nat) | Hand(t: nat) | Shard(j: nat) | Gone

  const RAW: nat := 0
  const KINDS: nat := 4
  const WRITERS: nat := 5
  const FIREWALL: nat := 3

  datatype Role = Recv | Demux | Decode(kind: nat) | Match(shard: nat) | Writer(w: nat)

  /** Where a thread is between two visible effects. */
  datatype Phase =
    | Top                   // about to test the shutdown flag
    | Ready                 // waiting for input
    | Has                   // owns one item
    | Evicting              // its item is listed; inside the list lock
    | Freeing               // frees what was evicted
    | Given                 // its item went to the archive writer
    | Judged                // analyzed, neither listed nor given away
    | Done                  // the same, and counted as processed
    | Copying(back: Phase)  // owns a copy as well
    | DropTest              // a shard push failed and the event is freed
    | OwesShardDrop         // shard_dropped is to be counted, then dropped
    | OwesDrop(shard: bool) // dropped is to be counted
    | Exited

  datatype Thread = Thread(role: Role, phase: Phase)

  /** `elsewhere` are the drops that no decoder counted, `uncounted` what shutdown frees. */
  datatype Counters = Counters(received: nat, processed: nat, dropped: nat, shardDropped: nat, elsewhere: nat,
                                rejected: nat, uncounted: nat)

  datatype State = State(
    shards: nat,
    size: nat,
    items: map<Place, seq<Id>>,
    at: seq<Place>,
    threads: seq<Thread>,
    closed: set<nat>,
    shuttingDown: bool,
    stage: nat,
    n: Counters)

  // -------------------------------------------------------------------------------------------
  // Ownership

  /** Every item is in exactly one place, and there once. */
  ghost predicate Owned(items: map<Place, seq<Id>>, at: seq<Place>) {
    && (forall p, x {:trigger x in items[p]} | p in items && x in items[p] :: x < |at| && at[x] == p)
    && (forall p | p in items :: Distinct(items[p]))
    && (forall id | 0 <= id < |at| :: at[id] in items && id in items[at[id]])
  }

  /** The item at position `i` of `from` goes to the tail or to the front of `to`. */
  function MovedItems(items: map<Place, seq<Id>>, from: Place, i: nat, to: Place, front: bool): (r: map<Place, seq<Id>>)
    requires from in items && to in items && from != to && i < |items[from]|
    ensures r.Keys == items.Keys
  {
    var id := items[from][i];
    items[from := Without(items[from], i)][to := if front then [id] + items[to] else items[to] + [id]]
  }

  lemma MovedMembers(items: map<Place, seq<Id>>, from: Place, i: nat, to: Place, front: bool, p: Place)
    requires from in items && to in items && from != to && i < |items[from]| && p in items
    requires Distinct(items[p]) && Distinct(items[from]) && items[from][i] !in items[to]
    ensures var r, id := MovedItems(items, from, i, to, front)[p], items[from][i];
      && Distinct(r)
      && forall x :: x in r <==>
           if p == to then x == id || x in items[p] else if p == from then x in items[p] && x != id else x in items[p]
  {
    WithoutMembers(items[from], i);
    if p == to {
      var r, id := MovedItems(items, from, i, to, front)[p], items[from][i];
      assert r == if front then [id] + items[to] else items[to] + [id];
    }
  }

  lemma MoveKeepsOwned(items: map<Place, seq<Id>>, at: seq<Place>, from: Place, i: nat, to: Place, front: bool)
    requires Owned(items, at) && from in items && to in items && from != to && i < |items[from]|
    ensures var id := items[from][i];
      id < |at| && Owned(MovedItems(items, from, i, to, front), at[id := to])
  {
    var id := items[from][i];
    assert id in items[from];
    var r, at' := MovedItems(items, from, i, to, front), at[id := to];
    hide MovedItems, Distinct;
    forall p | p in r
      ensures Distinct(r[p]) && forall x {:trigger x in r[p]} | x in r[p] :: x < |at'| && at'[x] == p
    {
      MovedMembers(items, from, i, to, front, p);
    }
    forall x | 0 <= x < |at'|
      ensures at'[x] in r && x in r[at'[x]]
    {
      MovedMembers(items, from, i, to, front, at'[x]);
    }
  }

  /** A new item, in the hand that made it. */
  lemma NewKeepsOwned(items: map<Place, seq<Id>>, at: seq<Place>, to: Place)
    requires Owned(items, at) && to in items
    ensures Owned(items[to := items[to] + [|at|]], at + [to])
  {
    var r, at' := items[to := items[to] + [|at|]], at + [to];
    assert |at| !in items[to];
    forall p, x | p in r && x in r[p]
      ensures x < |at'| && at'[x] == p
    {
      assert (p == to && x == |at|) || x in items[p];
    }
    forall x | 0 <= x < |at'|
      ensures at'[x] in r && x in r[at'[x]]
    {
      assert x == |at| ==> r[to][|items[to]|] == x;
      assert x < |at| ==> x in items[at[x]];
    }
  }

  // -------------------------------------------------------------------------------------------
  // The steps

  function DecodeQueues(): nat { 1 + KINDS }

  /** The queues whose items have been received and are not yet processed: all but the writers'. */
  function EventQueues(s: State): nat { DecodeQueues() + s.shards }

  function AllQueues(s: State): nat { EventQueues(s) + WRITERS }

  /** The queue a thread takes its input from; the receiver reads the socket. */
  function Input(s: State, role: Role): nat {
    match role
    case Recv => AllQueues(s)
    case Demux => RAW
    case Decode(kind) => 1 + kind
    case Match(shard) => DecodeQueues() + shard
    case Writer(w) => EventQueues(s) + w
  }

  /** The queues a thread may push the item it works on to. */
  predicate Feeds(s: State, role: Role, q: nat) {
    match role
    case Recv => q == RAW
    case Demux => 1 <= q < DecodeQueues()
    case Decode(_) => DecodeQueues() <= q < EventQueues(s)
    case Match(_) => EventQueues(s) <= q < AllQueues(s)
    case Writer(_) => false
  }

  /** The queues a copy goes to: the writers', from the match threads and, for the firewall log, from the decoders. */
  predicate CopiesTo(s: State, role: Role, q: nat) {
    if role.Decode? then q == FirewallQueue(s) else role.Match? && EventQueues(s) <= q < AllQueues(s)
  }

  function FirewallQueue(s: State): nat { EventQueues(s) + FIREWALL }

  /** Shutdown joins the threads in this order. */
  function JoinStage(role: Role): nat {
    match role
    case Recv => 0
    case Demux => 1
    case Decode(_) => 2
    case Match(_) => 3
    case Writer(_) => 4
  }

  /** A queue is shut down once every thread that feeds it is joined. */
  function ShutStage(s: State, q: nat): nat {
    if q == RAW then 1 else if q < DecodeQueues() then 2 else if q < EventQueues(s) then 3 else 4
  }

  const DRAINING: nat := 5
  const DESTROYING: nat := 6
  const FINISHED: nat := 7

  datatype Action =
    | Look(t: nat)
    | Idle(t: nat)
    | Receive(t: nat)
    | Pop(t: nat)
    | Push(t: nat, q: nat)
    | PushFails(t: nat)
    | Reject(t: nat)
    | TestDrop(t: nat)
    | CountShardDrop(t: nat)
    | CountDrop(t: nat)
    | Register(t: nat)
    | Evict(t: nat)
    | StopEvicting(t: nat)
    | FreeVictim(t: nat)
    | Archive(t: nat, q: nat)
    | Judge(t: nat)
    | CountProcessed(t: nat)
    | Finish(t: nat)
    | Copy(t: nat)
    | PushCopy(t: nat, q: nat)
    | FreeCopy(t: nat)
    | Write(t: nat)
    | RequestShutdown
    | CloseQueue(q: nat)
    | NextStage
    | DrainOne(q: nat)
    | DestroyOne(j: nat)

  predicate ByThread(a: Action) {
    !(a.RequestShutdown? || a.CloseQueue? || a.NextStage? || a.DrainOne? || a.DestroyOne?)
  }

  /** All the places there are. */
  ghost predicate Places(s: State) {
    && (forall q: nat {:trigger Queue(q)} :: Queue(q) in s.items <==> q < AllQueues(s))
    && (forall t: nat {:trigger Hand(t)} :: Hand(t) in s.items <==> t < |s.threads|)
    && (forall j: nat {:trigger Shard(j)} :: Shard(j) in s.items <==> j < s.shards)
    && Gone in s.items
  }

  ghost predicate Accepts(s: State, q: nat)
    requires Places(s) && q < AllQueues(s)
  {
    q !in s.closed && |s.items[Queue(q)]| + 1 < s.size
  }

  predicate RoleOk(s: State, role: Role) {
    match role
    case Recv => true
    case Demux => true
    case Decode(kind) => kind < KINDS
    case Match(shard) => shard < s.shards
    case Writer(w) => w < WRITERS
  }

  /** How many items a thread owns in each phase, and who can be in it. */
  predicate Fits(role: Role, phase: Phase, held: nat) {
    match phase
    case Has => held == 1
    case Evicting => role.Match?
    case Freeing => role.Match?
    case Judged => role.Match? && held == 1
    case Done => role.Match? && held == 1
    case Given => role.Match? && held == 0
    case Copying(back) =>
      (role.Match? || role.Decode?) && if back == Has then held == 2 else role.Match? && back == Freeing && held == 1
    case DropTest => role.Decode? && held == 0
    case OwesShardDrop => role.Decode? && held == 0
    case OwesDrop(shard) => !role.Match? && !role.Writer? && held == 0 && shard == role.Decode?
    case _ => held == 0
  }

  /** The configuration allows no queue of less than 128 places; more than one is enough here. */
  ghost predicate Shaped(s: State) {
    && Places(s) && s.size > 1
    && (forall t {:trigger s.threads[t]} | 0 <= t < |s.threads| ::
          RoleOk(s, s.threads[t].role) && Fits(s.threads[t].role, s.threads[t].phase, |s.items[Hand(t)]|))
  }

  ghost predicate Enabled(s: State, a: Action)
    requires Shaped(s)
  {
    if ByThread(a) then
      a.t < |s.threads| && EnabledFor(s, a, s.threads[a.t].role, s.threads[a.t].phase)
    else match a
      case RequestShutdown => true
      case CloseQueue(q) => s.shuttingDown && q < AllQueues(s) && s.stage == ShutStage(s, q)
      case NextStage => s.shuttingDown && StageDone(s)
      case DrainOne(q) => s.stage == DRAINING && q < AllQueues(s) && s.items[Queue(q)] != []
      case DestroyOne(j) => s.stage == DESTROYING && j < s.shards && s.items[Shard(j)] != []
      case _ => false
  }

  /** Every join of the stage has succeeded; the last two stages end when nothing is left. */
  ghost predicate StageDone(s: State)
    requires Shaped(s)
  {
    if s.stage < DRAINING then
      forall t | 0 <= t < |s.threads| && JoinStage(s.threads[t].role) == s.stage :: s.threads[t].phase == Exited
    else if s.stage == DRAINING then forall q | 0 <= q < AllQueues(s) :: s.items[Queue(q)] == []
    else s.stage == DESTROYING && forall j | 0 <= j < s.shards :: s.items[Shard(j)] == []
  }

  ghost predicate EnabledFor(s: State, a: Action, role: Role, phase: Phase)
    requires Shaped(s) && ByThread(a) && a.t < |s.threads| && s.threads[a.t] == Thread(role, phase)
  {
    match a
    case Look(_) => phase == Top
    case Idle(_) => phase == Ready
      && (role.Recv? || (Input(s, role) in s.closed && s.items[Queue(Input(s, role))] == []))
    case Receive(_) => phase == Ready && role.Recv?
    case Pop(_) => phase == Ready && !role.Recv? && s.items[Queue(Input(s, role))] != []
    case Push(_, q) => phase == Has && !role.Match? && Feeds(s, role, q) && Accepts(s, q)
    case PushFails(_) => phase == Has && !role.Match? && !role.Writer?
    case Reject(_) => phase == Has && role.Decode?
    case TestDrop(_) => phase == DropTest
    case CountShardDrop(_) => phase == OwesShardDrop
    case CountDrop(_) => phase.OwesDrop?
    case Register(_) => phase == Has && role.Match?
    case Evict(_) => phase == Evicting && |s.items[Shard(role.shard)]| > 1
    case StopEvicting(_) => phase == Evicting
    case FreeVictim(_) => phase == Freeing && s.items[Hand(a.t)] != []
    case Archive(_, q) => phase == Has && role.Match? && Feeds(s, role, q) && Accepts(s, q)
    case Judge(_) => phase == Has && role.Match?
    case CountProcessed(_) => phase == Given || phase == Judged || (phase == Freeing && s.items[Hand(a.t)] == [])
    case Finish(_) => phase == Done
    case Copy(_) => ((role.Match? || role.Decode?) && phase == Has)
      || (role.Match? && phase == Freeing && s.items[Hand(a.t)] == [])
    case PushCopy(_, q) => phase.Copying? && CopiesTo(s, role, q) && Accepts(s, q)
    case FreeCopy(_) => phase.Copying? && (role.Decode? ==> FirewallQueue(s) in s.closed)
    case Write(_) => phase == Has && role.Writer?
    case _ => false
  }

  /** What a step does to the items. */
  datatype Transfer = Nothing | Moves(from: Place, i: nat, to: Place, front: bool) | Makes(to: Place)

  ghost predicate Possible(items: map<Place, seq<Id>>, x: Transfer) {
    match x
    case Nothing => true
    case Moves(from, i, to, _) => from in items && to in items && from != to && i < |items[from]|
    case Makes(to) => to in items
  }

  /** The items after a transfer; a new item gets the next number. */
  ghost function ItemsAfter(items: map<Place, seq<Id>>, next: nat, x: Transfer): map<Place, seq<Id>>
    requires Possible(items, x)
  {
    match x
    case Nothing => items
    case Moves(from, i, to, front) => MovedItems(items, from, i, to, front)
    case Makes(to) => items[to := items[to] + [next]]
  }

  ghost function AtAfter(items: map<Place, seq<Id>>, at: seq<Place>, x: Transfer): seq<Place>
    requires Possible(items, x) && Owned(items, at)
  {
    match x
    case Nothing => at
    case Moves(from, i, to, _) => assert items[from][i] in items[from]; at[items[from][i] := to]
    case Makes(to) => at + [to]
  }

  lemma TransferKeepsOwned(items: map<Place, seq<Id>>, at: seq<Place>, x: Transfer)
    requires Possible(items, x) && Owned(items, at)
    ensures Owned(ItemsAfter(items, |at|, x), AtAfter(items, at, x))
  {
    match x
    case Nothing =>
    case Moves(from, i, to, front) => MoveKeepsOwned(items, at, from, i, to, front);
    case Makes(to) => NewKeepsOwned(items, at, to);
  }

  /** The last item of a hand. */
  ghost function LastHeld(s: State, t: nat): nat
    requires Shaped(s) && t < |s.threads|
  {
    if s.items[Hand(t)] == [] then 0 else |s.items[Hand(t)]| - 1
  }

  ghost function TransferOf(s: State, a: Action): Transfer
    requires Shaped(s) && Enabled(s, a)
  {
    match a
    case Receive(t) => Makes(Hand(t))
    case Copy(t) => Makes(Hand(t))
    case Pop(t) => Moves(Queue(Input(s, s.threads[t].role)), 0, Hand(t), false)
    case Push(t, q) => Moves(Hand(t), 0, Queue(q), false)
    case Archive(t, q) => Moves(Hand(t), 0, Queue(q), false)
    case PushCopy(t, q) => Moves(Hand(t), LastHeld(s, t), Queue(q), false)
    case Register(t) => Moves(Hand(t), 0, Shard(s.threads[t].role.shard), true)
    case Evict(t) => var j := Shard(s.threads[t].role.shard); Moves(j, |s.items[j]| - 1, Hand(t), false)
    case PushFails(t) => Moves(Hand(t), 0, Gone, false)
    case Reject(t) => Moves(Hand(t), 0, Gone, false)
    case FreeVictim(t) => Moves(Hand(t), LastHeld(s, t), Gone, false)
    case Finish(t) => Moves(Hand(t), 0, Gone, false)
    case FreeCopy(t) => Moves(Hand(t), LastHeld(s, t), Gone, false)
    case Write(t) => Moves(Hand(t), 0, Gone, false)
    case DrainOne(q) => Moves(Queue(q), 0, Gone, false)
    case DestroyOne(j) => Moves(Shard(j), 0, Gone, false)
    case _ => Nothing
  }

  /** The phase the acting thread goes to. */
  ghost function PhaseAfter(s: State, a: Action): Phase
    requires Shaped(s) && Enabled(s, a) && ByThread(a)
  {
    var role, phase := s.threads[a.t].role, s.threads[a.t].phase;
    match a
    case Look(t) => if s.shuttingDown then Exited else Ready
    case Idle(t) => if s.shuttingDown then Exited else Top
    case Receive(t) => Has
    case Pop(t) => Has
    case PushFails(t) => if role.Decode? then DropTest else OwesDrop(false)
    case TestDrop(t) => if s.shuttingDown then Top else OwesShardDrop
    case CountShardDrop(t) => OwesDrop(true)
    case Register(t) => Evicting
    case Evict(t) => Evicting
    case StopEvicting(t) => Freeing
    case FreeVictim(t) => Freeing
    case Archive(t, q) => Given
    case Judge(t) => Judged
    case CountProcessed(t) => if phase == Judged then Done else Top
    case Copy(t) => Copying(phase)
    case PushCopy(t, q) => phase.back
    case FreeCopy(t) => phase.back
    case _ => Top
  }

  ghost function CountersAfter(s: State, a: Action): Counters
    requires Shaped(s) && Enabled(s, a)
  {
    var n := s.n;
    match a
    case Receive(t) => n.(received := n.received + 1)
    case Reject(t) => n.(rejected := n.rejected + 1)
    case TestDrop(t) => if s.shuttingDown then n.(uncounted := n.uncounted + 1) else n
    case CountShardDrop(t) => n.(shardDropped := n.shardDropped + 1)
    case CountDrop(t) =>
      n.(dropped := n.dropped + 1, elsewhere := n.elsewhere + if s.threads[t].phase == OwesDrop(true) then 0 else 1)
    case CountProcessed(t) => n.(processed := n.processed + 1)
    case DrainOne(q) => if q < EventQueues(s) then n.(uncounted := n.uncounted + 1) else n
    case _ => n
  }

  lemma TransferIsPossible(s: State, a: Action)
    requires Shaped(s) && Enabled(s, a)
    ensures Possible(s.items, TransferOf(s, a))
  {
  }

  ghost function Step(s: State, a: Action): State
    requires Shaped(s) && Owned(s.items, s.at) && Enabled(s, a)
  {
    TransferIsPossible(s, a);
    var x := TransferOf(s, a);
    s.(items := ItemsAfter(s.items, |s.at|, x),
       at := AtAfter(s.items, s.at, x),
       threads := if ByThread(a) then s.threads[a.t := s.threads[a.t].(phase := PhaseAfter(s, a))] else s.threads,
       n := CountersAfter(s, a),
       shuttingDown := s.shuttingDown || a.RequestShutdown?,
       closed := if a.CloseQueue? then s.closed + {a.q} else s.closed,
       stage := if a.NextStage? then s.stage + 1 else s.stage)
  }

  // -------------------------------------------------------------------------------------------
  // What every step keeps

  /** How much longer a place gets. */
  function Gain(x: Transfer, p: Place): int {
    match x
    case Nothing => 0
    case Moves(from, _, to, _) => (if p == to then 1 else 0) - (if p == from then 1 else 0)
    case Makes(to) => if p == to then 1 else 0
  }

  lemma TransferLengths(items: map<Place, seq<Id>>, next: nat, x: Transfer, p: Place)
    requires Possible(items, x) && p in items
    ensures var r := ItemsAfter(items, next, x);
      r.Keys == items.Keys && |r[p]| == |items[p]| + Gain(x, p)
  {
  }

  lemma TransferKeys(items: map<Place, seq<Id>>, next: nat, x: Transfer)
    requires Possible(items, x)
    ensures ItemsAfter(items, next, x).Keys == items.Keys
  {
  }

  lemma HandsFit(s: State, a: Action)
    requires Shaped(s) && Enabled(s, a) && ByThread(a)
    ensures Fits(s.threads[a.t].role, PhaseAfter(s, a), |s.items[Hand(a.t)]| + Gain(TransferOf(s, a), Hand(a.t)))
  {
  }

  lemma StepShaped(s: State, a: Action)
    requires Shaped(s) && Owned(s.items, s.at) && Enabled(s, a)
    ensures Shaped(Step(s, a))
  {
    TransferIsPossible(s, a);
    var r, x := Step(s, a), TransferOf(s, a);
    TransferLengths(s.items, |s.at|, x, Gone);
    hide ItemsAfter, AtAfter, Owned;
    assert Places(r);
    forall t | 0 <= t < |r.threads|
      ensures RoleOk(r, r.threads[t].role) && Fits(r.threads[t].role, r.threads[t].phase, |r.items[Hand(t)]|)
    {
      TransferLengths(s.items, |s.at|, x, Hand(t));
      if ByThread(a) && a.t == t { HandsFit(s, a); } else { OthersKeepHands(s, a, t); }
    }
  }

  /** A step touches no hand but its own. */
  lemma OthersKeepHands(s: State, a: Action, t: nat)
    requires Shaped(s) && Enabled(s, a) && t < |s.threads| && !(ByThread(a) && a.t == t)
    ensures Gain(TransferOf(s, a), Hand(t)) == 0
  {
  }

  /** No queue holds more than it has places, and none is shut down before its stage. */
  ghost predicate QueuesOk(s: State)
    requires Shaped(s)
  {
    && (forall q: nat | q < AllQueues(s) :: |s.items[Queue(q)]| < s.size)
    && (forall q | q in s.closed :: q < AllQueues(s) && s.stage >= ShutStage(s, q))
  }

  /** The threads of the stages behind are joined, and what is drained stays empty. */
  ghost predicate Staged(s: State)
    requires Shaped(s)
  {
    && s.stage <= FINISHED && QueuesOk(s)
    && (s.stage > 0 || s.closed != {} ==> s.shuttingDown)
    && (forall t {:trigger s.threads[t]} | 0 <= t < |s.threads| && JoinStage(s.threads[t].role) < s.stage ::
      s.threads[t].phase == Exited)
    && (s.stage > DRAINING ==> forall q: nat | q < AllQueues(s) :: s.items[Queue(q)] == [])
    && (s.stage > DESTROYING ==> forall j: nat | j < s.shards :: s.items[Shard(j)] == [])
  }

  lemma StepQueuesOk(s: State, a: Action)
    requires Shaped(s) && Owned(s.items, s.at) && Enabled(s, a) && QueuesOk(s)
    ensures Shaped(Step(s, a)) && QueuesOk(Step(s, a))
  {
    StepShaped(s, a);
    TransferIsPossible(s, a);
    var r, x := Step(s, a), TransferOf(s, a);
    forall q: nat | q < AllQueues(r) ensures |r.items[Queue(q)]| < r.size {
      TransferLengths(s.items, |s.at|, x, Queue(q));
      if Gain(x, Queue(q)) > 0 { OnlyIntoRoom(s, a, q); }
    }
    hide ItemsAfter, AtAfter, Owned, Fits;
  }

  lemma OnlyIntoRoom(s: State, a: Action, q: nat)
    requires Shaped(s) && Enabled(s, a) && q < AllQueues(s) && Gain(TransferOf(s, a), Queue(q)) > 0
    ensures Gain(TransferOf(s, a), Queue(q)) == 1 && |s.items[Queue(q)]| + 1 < s.size
  {
  }

  lemma ExitedIsStill(s: State, a: Action)
    requires Shaped(s) && Enabled(s, a) && ByThread(a)
    ensures s.threads[a.t].phase != Exited
  {
  }

  lemma StepStaged(s: State, a: Action)
    requires Shaped(s) && Owned(s.items, s.at) && Enabled(s, a) && Staged(s)
    ensures Shaped(Step(s, a)) && Staged(Step(s, a))
  {
    StepShaped(s, a);
    TransferIsPossible(s, a);
    if ByThread(a) { ExitedIsStill(s, a); }
    StepQueuesOk(s, a);
    var r, x := Step(s, a), TransferOf(s, a);
    hide ItemsAfter, AtAfter, Owned, Fits, QueuesOk;
    if r.stage > DRAINING {
      forall q: nat | q < AllQueues(r) ensures r.items[Queue(q)] == [] {
        TransferLengths(s.items, |s.at|, x, Queue(q));
      }
    }
    if r.stage > DESTROYING {
      forall j: nat | j < r.shards ensures r.items[Shard(j)] == [] {
        TransferLengths(s.items, |s.at|, x, Shard(j));
      }
    }
  }

  /** The items in the first `n` queues. */
  ghost function Queued(items: map<Place, seq<Id>>, n: nat): nat
    requires forall q: nat | q < n :: Queue(q) in items
  {
    if n == 0 then 0 else Queued(items, n - 1) + |items[Queue(n - 1)]|
  }

  /** Whether a thread has a received message in hand that no counter accounts for yet. */
  function Pending(th: Thread): nat {
    if th.role.Writer? then 0
    else match th.phase
      case Top => 0
      case Ready => 0
      case Done => 0
      case Exited => 0
      case _ => 1
  }

  function InHands(threads: seq<Thread>): nat {
    if threads == [] then 0 else Pending(threads[0]) + InHands(threads[1..])
  }

  /** Whether a thread has counted a shard drop and not yet the drop. */
  function Late(th: Thread): nat {
    if th.phase == OwesDrop(true) then 1 else 0
  }

  function LateDrops(threads: seq<Thread>): nat {
    if threads == [] then 0 else Late(threads[0]) + LateDrops(threads[1..])
  }

  lemma {:induction false} HandsUpdated(threads: seq<Thread>, t: nat, th: Thread)
    requires t < |threads|
    ensures InHands(threads[t := th]) == InHands(threads) - Pending(threads[t]) + Pending(th)
    ensures LateDrops(threads[t := th]) == LateDrops(threads) - Late(threads[t]) + Late(th)
  {
    if t > 0 {
      HandsUpdated(threads[1..], t - 1, th);
      assert threads[t := th][1..] == threads[1..][t - 1 := th];
    } else {
      assert threads[t := th][1..] == threads[1..];
    }
  }

  /** The change of the first `n` queues together. */
  function QueueGain(x: Transfer, n: nat): int {
    match x
    case Nothing => 0
    case Moves(from, _, to, _) =>
      (if to.Queue? && to.q < n then 1 else 0) - (if from.Queue? && from.q < n then 1 else 0)
    case Makes(to) => if to.Queue? && to.q < n then 1 else 0
  }

  lemma {:induction false} QueuedUpdated(items: map<Place, seq<Id>>, next: nat, x: Transfer, n: nat)
    requires Possible(items, x) && forall q: nat | q < n :: Queue(q) in items
    ensures forall q: nat | q < n :: Queue(q) in ItemsAfter(items, next, x)
    ensures Queued(ItemsAfter(items, next, x), n) == Queued(items, n) + QueueGain(x, n)
  {
    TransferKeys(items, next, x);
    if n > 0 {
      TransferLengths(items, next, x, Queue(n - 1));
      QueuedUpdated(items, next, x, n - 1);
    }
  }

  /** Every received message is counted as processed, dropped or rejected, or it is on its way. */
  ghost predicate Balanced(s: State)
    requires Shaped(s)
  {
    && s.n.received == s.n.processed + s.n.dropped + s.n.rejected + s.n.uncounted
         + Queued(s.items, EventQueues(s)) + InHands(s.threads)
    && s.n.shardDropped + s.n.elsewhere == s.n.dropped + LateDrops(s.threads)
    && (!s.shuttingDown ==> s.n.uncounted == 0)
  }

  /** The books of one step: what is received is what the counters, the queues and the acting hand gain. */
  lemma StepIsAccounted(s: State, a: Action)
    requires Shaped(s) && Enabled(s, a) && Staged(s)
    ensures var m, gain := CountersAfter(s, a), QueueGain(TransferOf(s, a), EventQueues(s));
      var hand := if ByThread(a) then Pending(s.threads[a.t].(phase := PhaseAfter(s, a))) - Pending(s.threads[a.t])
        else 0;
      var late := if ByThread(a) then Late(s.threads[a.t].(phase := PhaseAfter(s, a))) - Late(s.threads[a.t]) else 0;
      && m.received - s.n.received == m.processed - s.n.processed + m.dropped - s.n.dropped
           + m.rejected - s.n.rejected + m.uncounted - s.n.uncounted + gain + hand
      && m.shardDropped - s.n.shardDropped + m.elsewhere - s.n.elsewhere == m.dropped - s.n.dropped + late
      && (!s.shuttingDown ==> m.uncounted == s.n.uncounted)
  {
  }

  lemma StepBalanced(s: State, a: Action)
    requires Shaped(s) && Owned(s.items, s.at) && Enabled(s, a) && Staged(s) && Balanced(s)
    ensures Shaped(Step(s, a)) && Balanced(Step(s, a))
  {
    hide Owned, Enabled, Step, Staged, CountersAfter, PhaseAfter, TransferOf, Pending, Late, Queued, InHands, LateDrops;
    hide Places, Fits, QueueGain;
    StepShaped(s, a);
    StepThreads(s, a);
    StepQueued(s, a);
    StepIsAccounted(s, a);
  }

  /** The threads and counters after a step. */
  lemma StepThreads(s: State, a: Action)
    requires Shaped(s) && Owned(s.items, s.at) && Enabled(s, a)
    ensures var r := Step(s, a);
      && r.n == CountersAfter(s, a) && r.shards == s.shards && (s.shuttingDown ==> r.shuttingDown)
      && (ByThread(a) ==>
            var th := s.threads[a.t].(phase := PhaseAfter(s, a));
            && InHands(r.threads) == InHands(s.threads) - Pending(s.threads[a.t]) + Pending(th)
            && LateDrops(r.threads) == LateDrops(s.threads) - Late(s.threads[a.t]) + Late(th))
      && (!ByThread(a) ==> r.threads == s.threads)
  {
    if ByThread(a) {
      HandsUpdated(s.threads, a.t, s.threads[a.t].(phase := PhaseAfter(s, a)));
    }
    hide ItemsAfter, AtAfter, Owned, Fits, CountersAfter, PhaseAfter, TransferOf, Pending, Late, InHands, LateDrops;
  }

  lemma StepQueued(s: State, a: Action)
    requires Shaped(s) && Owned(s.items, s.at) && Enabled(s, a)
    ensures var r, n := Step(s, a), EventQueues(s);
      && (forall q: nat | q < n :: Queue(q) in s.items && Queue(q) in r.items)
      && Queued(r.items, n) == Queued(s.items, n) + QueueGain(TransferOf(s, a), n)
  {
    TransferIsPossible(s, a);
    QueuedUpdated(s.items, |s.at|, TransferOf(s, a), EventQueues(s));
    hide ItemsAfter, AtAfter, Owned, Fits, CountersAfter, PhaseAfter, TransferOf;
  }

  // -------------------------------------------------------------------------------------------
  // Whole runs

  ghost predicate Inv(s: State) {
    Shaped(s) && Owned(s.items, s.at) && Staged(s) && Balanced(s)
  }

  /** The daemon before its threads do anything. */
  ghost predicate Initial(s: State) {
    && Places(s) && s.size > 1 && (forall p | p in s.items :: s.items[p] == []) && s.at == []
    && (forall t | 0 <= t < |s.threads| :: s.threads[t].phase == Top && RoleOk(s, s.threads[t].role))
    && s.closed == {} && !s.shuttingDown && s.stage == 0 && s.n == Counters(0, 0, 0, 0, 0, 0, 0)
  }

  lemma InitialInv(s: State)
    requires Initial(s)
    ensures Inv(s)
  {
    NothingInHands(s.threads);
    NothingQueued(s.items, EventQueues(s));
  }

  lemma {:induction false} NothingInHands(threads: seq<Thread>)
    requires forall t | 0 <= t < |threads| :: threads[t].phase == Top
    ensures InHands(threads) == LateDrops(threads) == 0
  {
    if threads != [] {
      NothingInHands(threads[1..]);
    }
  }

  lemma {:induction false} NothingQueued(items: map<Place, seq<Id>>, n: nat)
    requires forall q: nat | q < n :: Queue(q) in items && items[Queue(q)] == []
    ensures Queued(items, n) == 0
  {
    if n > 0 {
      NothingQueued(items, n - 1);
    }
  }

  lemma StepInv(s: State, a: Action)
    requires Inv(s) && Enabled(s, a)
    ensures Inv(Step(s, a))
  {
    TransferIsPossible(s, a);
    TransferKeepsOwned(s.items, s.at, TransferOf(s, a));
    StepStaged(s, a);
    StepBalanced(s, a);
  }

  /** An interleaving: any thread, or the thread that shuts down, may take the next step. */
  ghost predicate CanRun(s: State, actions: seq<Action>)
    requires Inv(s)
    decreases |actions|
  {
    actions == [] || (Enabled(s, actions[0]) && (StepInv(s, actions[0]); CanRun(Step(s, actions[0]), actions[1..])))
  }

  ghost function After(s: State, actions: seq<Action>): (r: State)
    requires Inv(s) && CanRun(s, actions)
    ensures Inv(r)
    decreases |actions|
  {
    if actions == [] then s else StepInv(s, actions[0]); After(Step(s, actions[0]), actions[1..])
  }

  /** Single ownership: after any steps of any threads, every item there has been is in exactly one queue, hand or
      history, or freed, and there once. */
  lemma OneOwner(s: State, actions: seq<Action>, id: Id) returns (p: Place)
    requires Initial(s)
    ensures Inv(s)
    ensures CanRun(s, actions) ==>
      var r := After(s, actions);
      id < |r.at| ==>
        && p in r.items && id in r.items[p] && Distinct(r.items[p])
        && forall q | q in r.items && q != p :: id !in r.items[q]
  {
    InitialInv(s);
    p := Gone;
    if CanRun(s, actions) && id < |After(s, actions).at| {
      p := After(s, actions).at[id];
    }
  }

  /** Conservation: in every interleaving of any number of threads, until shutdown is requested, every
      message received is processed, dropped, rejected, in a queue before the match stage ends, or in a
      thread's hand. */
  lemma NothingIsLost(s: State, actions: seq<Action>)
    requires Initial(s)
    ensures Inv(s)
    ensures CanRun(s, actions) ==>
      var r := After(s, actions);
      && (!r.shuttingDown ==>
        r.n.received == r.n.processed + r.n.dropped + r.n.rejected + Queued(r.items, EventQueues(r))
        + InHands(r.threads))
      && r.n.shardDropped <= r.n.dropped + LateDrops(r.threads)
  {
    InitialInv(s);
    if CanRun(s, actions) {
      assert Balanced(After(s, actions));
    }
  }

  /** A step that frees appends to `Gone`. */
  lemma FreesAtTail(s: State, a: Action)
    requires Shaped(s) && Enabled(s, a)
    ensures var x := TransferOf(s, a);
      x.Moves? && x.to == Gone ==> !x.front && x.from != Gone
    ensures !(TransferOf(s, a).Makes? && TransferOf(s, a).to == Gone)
    ensures !(TransferOf(s, a).Moves? && TransferOf(s, a).from == Gone)
  {
  }

  /** Freeing happens to an item in somebody's ownership, never to one that is freed already, and a
      freed item never comes back. */
  lemma FreedOnce(s: State, a: Action)
    requires Inv(s) && Enabled(s, a)
    ensures var x := TransferOf(s, a);
      if x.Moves? && x.to == Gone then
        && x.from in s.items && x.i < |s.items[x.from]|
        && s.items[x.from][x.i] !in s.items[Gone]
        && Step(s, a).items[Gone] == s.items[Gone] + [s.items[x.from][x.i]]
      else Step(s, a).items[Gone] == s.items[Gone]
  {
    TransferIsPossible(s, a);
    FreesAtTail(s, a);
    var x := TransferOf(s, a);
    hide Shaped, TransferOf, Enabled, Distinct;
    if x.Moves? && x.to == Gone {
      assert s.items[x.from][x.i] in s.items[x.from];
    }
  }

  /** Once every join has succeeded no thread can take a step, so nothing is pushed any more. */
  lemma NothingMovesWhileDraining(s: State, a: Action)
    requires Inv(s) && s.stage >= DRAINING && Enabled(s, a)
    ensures !ByThread(a)
  {
    if ByThread(a) {
      ExitedIsStill(s, a);
    }
  }

  /** When shutdown is finished every item there ever was has been freed, and exactly once. */
  lemma ShutdownFreesEverything(s: State)
    requires Inv(s) && s.stage == FINISHED
    ensures forall id | 0 <= id < |s.at| :: id in s.items[Gone]
    ensures Distinct(s.items[Gone]) && |s.items[Gone]| == |s.at|
  {
    forall p | p in s.items && p != Gone ensures s.items[p] == [] {
      match p
      case Queue(q) =>
      case Hand(t) => assert s.threads[t].phase == Exited;
      case Shard(j) =>
    }
    forall id: nat | id < |s.at| ensures id in s.items[Gone] {
      assert id in s.items[s.at[id]];
    }
    assert forall k | 0 <= k < |s.items[Gone]| :: s.items[Gone][k] in s.items[Gone];
    AllOnce(s.items[Gone], |s.at|);
  }

  lemma BelowAll(ids: seq<Id>, n: nat, x: Id)
    requires x in ids && forall k | 0 <= k < |ids| :: ids[k] < n
    ensures x < n
  {
  }

  lemma {:induction false} AllOnce(ids: seq<Id>, n: nat)
    requires Distinct(ids) && (forall k | 0 <= k < |ids| :: ids[k] < n) && forall x: nat | x < n :: x in ids
    ensures |ids| == n
  {
    if ids != [] { BelowAll(ids, n, ids[0]); }
    if n > 0 {
      var last: nat := n - 1;
      assert last in ids;
      var k :| 0 <= k < |ids| && ids[k] == last;
      WithoutMembers(ids, k);
      var rest := Without(ids, k);
      DistinctWithout(ids, k);
      hide Without, Distinct;
      forall i | 0 <= i < |rest| ensures rest[i] < n - 1 {
        assert rest[i] in rest && rest[i] in ids;
        BelowAll(ids, n, rest[i]);
      }
      AllOnce(rest, n - 1);
    }
  }

  /** After any run, shard_dropped is at most dropped exactly when no more decoders stand between its two increments
      than drops were counted elsewhere. */
  lemma ShardDropsAreDrops(s: State, actions: seq<Action>)
    requires Initial(s)
    ensures Inv(s)
    ensures CanRun(s, actions) ==>
      var r := After(s, actions);
      r.n.shardDropped <= r.n.dropped <==> LateDrops(r.threads) <= r.n.elsewhere
  {
    InitialInv(s);
    if CanRun(s, actions) {
      assert Balanced(After(s, actions));
    }
  }
}
