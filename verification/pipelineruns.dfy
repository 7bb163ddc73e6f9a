/** Runs of the pipeline that its invariants do not show: how a drop counter gets ahead, and when shutdown can be
    completed. */
module PipelineRuns {
  import opened Events
  import opened Pipeline

  // -------------------------------------------------------------------------------------------
  // Runs put together

  lemma {:induction false} RunsFollow(s: State, a: seq<Action>, b: seq<Action>)
    requires Inv(s) && CanRun(s, a) && CanRun(After(s, a), b)
    ensures CanRun(s, a + b) && After(s, a + b) == After(After(s, a), b)
    decreases |a|
  {
    hide Shaped, Owned, Staged, Balanced, Enabled, Step;
    if a == [] {
      assert a + b == b;
    } else {
      StepInv(s, a[0]);
      RunsFollow(Step(s, a[0]), a[1..], b);
      assert (a + b)[0] == a[0] && (a + b)[1..] == a[1..] + b;
    }
  }

  lemma OneRuns(s: State, a: Action)
    requires Inv(s) && Enabled(s, a)
    ensures CanRun(s, [a]) && After(s, [a]) == Step(s, a)
  {
    StepInv(s, a);
    hide Shaped, Owned, Staged, Balanced, Enabled, Step;
    assert [a][1..] == [];
  }

  /** A run and one more step. */
  lemma RunsOn(s: State, done: seq<Action>, a: Action)
    requires Inv(s) && CanRun(s, done) && Enabled(After(s, done), a)
    ensures CanRun(s, done + [a]) && After(s, done + [a]) == Step(After(s, done), a)
  {
    hide Shaped, Owned, Staged, Balanced, Enabled, Step;
    OneRuns(After(s, done), a);
    RunsFollow(s, done, [a]);
  }

  // -------------------------------------------------------------------------------------------
  // The drop counters

  /** A receiver, a demultiplexer and a decoder of one kind. */
  datatype Line = Line(recv: nat, demux: nat, decode: nat, kind: nat, shards: nat)

  /** Where these three are, how many items are in the queues between them, in the first shard's and in the firewall
      writer's, and the two counters. */
  datatype Sketch = Sketch(
    recv: Phase,
    demux: Phase,
    decode: Phase,
    raw: nat,
    mid: nat,
    out: nat,
    fw: nat,
    shardDropped: nat,
    dropped: nat)

  /** The number of the firewall writer's queue. */
  function Fw(l: Line): nat { DecodeQueues() + l.shards + FIREWALL }

  ghost predicate OnLine(s: State, l: Line) {
    && l.recv < |s.threads| && l.demux < |s.threads| && l.decode < |s.threads| && l.kind < KINDS
    && s.shards == l.shards > 0
    && s.threads[l.recv].role == Recv && s.threads[l.demux].role == Demux && s.threads[l.decode].role == Decode(l.kind)
  }

  ghost predicate Drawn(s: State, l: Line, v: Sketch) {
    && Inv(s) && OnLine(s, l) && !s.shuttingDown && s.closed == {}
    && s.threads[l.recv].phase == v.recv && s.threads[l.demux].phase == v.demux && s.threads[l.decode].phase == v.decode
    && |s.items[Queue(RAW)]| == v.raw && |s.items[Queue(1 + l.kind)]| == v.mid
    && |s.items[Queue(DecodeQueues())]| == v.out && |s.items[Queue(Fw(l))]| == v.fw
    && (forall t | 0 <= t < |s.threads| && s.threads[t].role.Writer? :: s.threads[t].phase == Top)
    && s.n.shardDropped == v.shardDropped && s.n.dropped == v.dropped
  }

  /** What one of them may do. */
  predicate May(l: Line, v: Sketch, size: nat, a: Action) {
    l.recv != l.demux && l.demux != l.decode && l.decode != l.recv &&
    match a
    case Look(t) => (t == l.recv && v.recv == Top) || (t == l.demux && v.demux == Top)
      || (t == l.decode && v.decode == Top)
    case Receive(t) => t == l.recv && v.recv == Ready
    case Pop(t) => (t == l.demux && v.demux == Ready && v.raw > 0) || (t == l.decode && v.decode == Ready && v.mid > 0)
    case Push(t, q) =>
      || (t == l.recv && v.recv == Has && q == RAW && v.raw + 1 < size)
      || (t == l.demux && v.demux == Has && q == 1 + l.kind && v.mid + 1 < size)
      || (t == l.decode && v.decode == Has && q == DecodeQueues() && v.out + 1 < size)
    case Copy(t) => t == l.decode && v.decode == Has
    case PushCopy(t, q) => t == l.decode && v.decode == Copying(Has) && q == Fw(l) && v.fw + 1 < size
    case PushFails(t) => t == l.decode && v.decode == Has
    case TestDrop(t) => t == l.decode && v.decode == DropTest
    case CountShardDrop(t) => t == l.decode && v.decode == OwesShardDrop
    case _ => false
  }

  function PhaseDone(a: Action): Phase {
    match a
    case Look(_) => Ready
    case Receive(_) => Has
    case Pop(_) => Has
    case Copy(_) => Copying(Has)
    case PushCopy(_, _) => Has
    case PushFails(_) => DropTest
    case TestDrop(_) => OwesShardDrop
    case CountShardDrop(_) => OwesDrop(true)
    case _ => Top
  }

  function Do(l: Line, v: Sketch, size: nat, a: Action): Sketch
    requires May(l, v, size, a)
  {
    var w :=
      if a.t == l.recv then v.(recv := PhaseDone(a))
      else if a.t == l.demux then v.(demux := PhaseDone(a))
      else v.(decode := PhaseDone(a));
    match a
    case Pop(t) => if t == l.demux then w.(raw := v.raw - 1) else w.(mid := v.mid - 1)
    case Push(t, q) =>
      if t == l.recv then w.(raw := v.raw + 1)
      else if t == l.demux then w.(mid := v.mid + 1)
      else w.(out := v.out + 1)
    case PushCopy(_, _) => w.(fw := v.fw + 1)
    case CountShardDrop(_) => w.(shardDropped := v.shardDropped + 1)
    case _ => w
  }

  lemma MayIsEnabled(s: State, l: Line, v: Sketch, a: Action)
    requires Drawn(s, l, v) && May(l, v, s.size, a)
    ensures Enabled(s, a)
  {
    hide Owned, Staged, Balanced;
  }

  /** What a step does to the length of a queue. */
  lemma QueueAfter(s: State, a: Action, q: nat)
    requires Inv(s) && Enabled(s, a) && q < AllQueues(s)
    ensures Queue(q) in s.items && Queue(q) in Step(s, a).items
    ensures |Step(s, a).items[Queue(q)]| == |s.items[Queue(q)]| + Gain(TransferOf(s, a), Queue(q))
  {
    TransferIsPossible(s, a);
    TransferLengths(s.items, |s.at|, TransferOf(s, a), Queue(q));
    hide ItemsAfter, AtAfter, Owned, Staged, Balanced;
  }

  lemma SketchedPhases(s: State, l: Line, v: Sketch, a: Action)
    requires Drawn(s, l, v) && May(l, v, s.size, a) && Enabled(s, a)
    ensures ByThread(a) && PhaseAfter(s, a) == PhaseDone(a)
    ensures CountersAfter(s, a).dropped == s.n.dropped
    ensures CountersAfter(s, a).shardDropped == Do(l, v, s.size, a).shardDropped
  {
    hide Owned, Staged, Balanced, Places, Fits;
  }

  lemma SketchedQueues(s: State, l: Line, v: Sketch, a: Action)
    requires Drawn(s, l, v) && May(l, v, s.size, a) && Enabled(s, a)
    ensures var x, w := TransferOf(s, a), Do(l, v, s.size, a);
      && w.raw == v.raw + Gain(x, Queue(RAW))
      && w.mid == v.mid + Gain(x, Queue(1 + l.kind))
      && w.out == v.out + Gain(x, Queue(DecodeQueues()))
      && w.fw == v.fw + Gain(x, Queue(Fw(l)))
  {
    hide Owned, Staged, Balanced, Places, Fits;
  }

  lemma StepOf(s: State, a: Action)
    requires Inv(s) && Enabled(s, a) && ByThread(a) && a.t < |s.threads|
    ensures var r := Step(s, a);
      && r.threads == s.threads[a.t := s.threads[a.t].(phase := PhaseAfter(s, a))]
      && r.n == CountersAfter(s, a) && r.shards == s.shards && r.size == s.size
      && r.shuttingDown == s.shuttingDown && r.closed == s.closed && r.stage == s.stage
  {
    hide ItemsAfter, AtAfter, Owned, Staged, Balanced, Shaped, PhaseAfter, CountersAfter, TransferOf;
  }

  /** The step is what the sketch says. */
  lemma DoIsStep(s: State, l: Line, v: Sketch, a: Action)
    requires Drawn(s, l, v) && May(l, v, s.size, a) && Enabled(s, a)
    ensures Drawn(Step(s, a), l, Do(l, v, s.size, a)) && Step(s, a).size == s.size
  {
    hide Shaped, Owned, Staged, Balanced, Enabled, Step, TransferOf, PhaseAfter, CountersAfter, Gain, Do, PhaseDone;
    StepInv(s, a);
    SketchedPhases(s, l, v, a);
    SketchedQueues(s, l, v, a);
    QueueAfter(s, a, RAW);
    QueueAfter(s, a, 1 + l.kind);
    QueueAfter(s, a, DecodeQueues());
    QueueAfter(s, a, Fw(l));
    StepOf(s, a);
    Assembled(s, Step(s, a), l, v, a);
  }

  lemma Assembled(s: State, r: State, l: Line, v: Sketch, a: Action)
    requires Drawn(s, l, v) && May(l, v, s.size, a) && ByThread(a) && Inv(r) && a.t < |s.threads|
    requires r.threads == s.threads[a.t := s.threads[a.t].(phase := PhaseDone(a))]
    requires r.shards == s.shards && r.shuttingDown == s.shuttingDown && r.closed == s.closed
    requires r.n.dropped == s.n.dropped && r.n.shardDropped == Do(l, v, s.size, a).shardDropped
    requires Queue(RAW) in r.items && |r.items[Queue(RAW)]| == Do(l, v, s.size, a).raw
    requires Queue(1 + l.kind) in r.items && |r.items[Queue(1 + l.kind)]| == Do(l, v, s.size, a).mid
    requires Queue(DecodeQueues()) in r.items && |r.items[Queue(DecodeQueues())]| == Do(l, v, s.size, a).out
    requires Queue(Fw(l)) in r.items && |r.items[Queue(Fw(l))]| == Do(l, v, s.size, a).fw
    ensures Drawn(r, l, Do(l, v, s.size, a))
  {
    hide Inv, ByThread, AllQueues, EventQueues;
    var w := Do(l, v, s.size, a);
    assert w.dropped == v.dropped;
    assert OnLine(r, l);
  }

  /** A run from `s` ends as sketched. */
  ghost predicate Comes(s: State, done: seq<Action>, l: Line, v: Sketch) {
    Inv(s) && CanRun(s, done) && Drawn(After(s, done), l, v) && After(s, done).size == s.size
  }

  /** No push has failed in it. */
  predicate NoFailure(done: seq<Action>) {
    forall i | 0 <= i < |done| :: !done[i].PushFails?
  }

  predicate Steps(l: Line, v: Sketch, size: nat, a: Action, w: Sketch) {
    May(l, v, size, a) && Do(l, v, size, a) == w
  }

  /** The run goes on with one of these steps. */
  lemma Advance(s: State, done: seq<Action>, l: Line, v: Sketch, a: Action, w: Sketch) returns (more: seq<Action>)
    requires Comes(s, done, l, v) && Steps(l, v, s.size, a, w)
    ensures more == done + [a] && Comes(s, more, l, w)
    ensures NoFailure(done) && !a.PushFails? ==> NoFailure(more)
  {
    more := done + [a];
    hide May, Do, Drawn, Enabled, Step, Shaped, Owned, Staged, Balanced, CanRun, After;
    var t := After(s, done);
    IsInv(t, l, v);
    MayIsEnabled(t, l, v, a);
    DoIsStep(t, l, v, a);
    RunsOn(s, done, a);
  }

  lemma IsInv(t: State, l: Line, v: Sketch)
    requires Drawn(t, l, v)
    ensures Inv(t)
  {
  }

  /** All three are about to start over, and nothing is under way between them. */
  function Waiting(out: nat, fw: nat): Sketch {
    Sketch(Top, Top, Top, 0, 0, out, fw, 0, 0)
  }

  lemma DeliverySteps(l: Line, v: Sketch, size: nat)
    requires size > 1 && l.recv != l.demux && l.demux != l.decode && l.decode != l.recv
    requires v.recv == v.demux == v.decode == Top && v.raw == v.mid == 0
    ensures Steps(l, v, size, Look(l.recv), v.(recv := Ready))
    ensures Steps(l, v.(recv := Ready), size, Receive(l.recv), v.(recv := Has))
    ensures Steps(l, v.(recv := Has), size, Push(l.recv, RAW), v.(raw := 1))
    ensures Steps(l, v.(raw := 1), size, Look(l.demux), v.(raw := 1, demux := Ready))
    ensures Steps(l, v.(raw := 1, demux := Ready), size, Pop(l.demux), v.(demux := Has))
    ensures Steps(l, v.(demux := Has), size, Push(l.demux, 1 + l.kind), v.(mid := 1))
    ensures Steps(l, v.(mid := 1), size, Look(l.decode), v.(mid := 1, decode := Ready))
    ensures Steps(l, v.(mid := 1, decode := Ready), size, Pop(l.decode), v.(decode := Has))
  {
  }

  /** A message reaches the decoder. */
  lemma Reaches(s: State, done: seq<Action>, l: Line, out: nat, fw: nat) returns (more: seq<Action>)
    requires Comes(s, done, l, Waiting(out, fw)) && NoFailure(done)
    ensures Comes(s, more, l, Waiting(out, fw).(decode := Has)) && NoFailure(more)
  {
    assert l.recv != l.demux && l.demux != l.decode && l.decode != l.recv && s.size > 1;
    DeliverySteps(l, Waiting(out, fw), s.size);
    hide Comes, NoFailure, Steps, Waiting;
    var v := Waiting(out, fw);
    more := Advance(s, done, l, v, Look(l.recv), v.(recv := Ready));
    more := Advance(s, more, l, v.(recv := Ready), Receive(l.recv), v.(recv := Has));
    more := Advance(s, more, l, v.(recv := Has), Push(l.recv, RAW), v.(raw := 1));
    more := Advance(s, more, l, v.(raw := 1), Look(l.demux), v.(raw := 1, demux := Ready));
    more := Advance(s, more, l, v.(raw := 1, demux := Ready), Pop(l.demux), v.(demux := Has));
    more := Advance(s, more, l, v.(demux := Has), Push(l.demux, 1 + l.kind), v.(mid := 1));
    more := Advance(s, more, l, v.(mid := 1), Look(l.decode), v.(mid := 1, decode := Ready));
    more := Advance(s, more, l, v.(mid := 1, decode := Ready), Pop(l.decode), v.(decode := Has));
  }

  /** The shard's queue fills up. */
  lemma {:induction false} Fills(s: State, done: seq<Action>, l: Line, out: nat) returns (more: seq<Action>)
    requires Comes(s, done, l, Waiting(out, 0)) && NoFailure(done) && out < s.size
    ensures Comes(s, more, l, Waiting(s.size - 1, 0)) && NoFailure(more)
    decreases s.size - out
  {
    more := done;
    if out + 1 < s.size {
      assert l.recv != l.demux && l.demux != l.decode && l.decode != l.recv;
      var v := Waiting(out, 0).(decode := Has);
      assert Steps(l, v, s.size, Push(l.decode, DecodeQueues()), Waiting(out + 1, 0));
      hide Comes, NoFailure, Steps, Waiting;
      more := Reaches(s, more, l, out, 0);
      more := Advance(s, more, l, v, Push(l.decode, DecodeQueues()), Waiting(out + 1, 0));
      more := Fills(s, more, l, out + 1);
    }
  }

  lemma CopySteps(l: Line, n: nat, size: nat)
    requires l.recv != l.demux && l.demux != l.decode && l.decode != l.recv
    ensures var v := Waiting(n, n);
      && Steps(l, v.(decode := Has), size, Copy(l.decode), v.(decode := Copying(Has)))
      && (n + 1 < size ==>
            && Steps(l, v.(decode := Copying(Has)), size, PushCopy(l.decode, Fw(l)), v.(decode := Has, fw := n + 1))
            && Steps(l, v.(decode := Has, fw := n + 1), size, Push(l.decode, DecodeQueues()), Waiting(n + 1, n + 1)))
  {
  }

  /** The decoder takes a message, and a copy of it for the firewall log. */
  lemma Copies(s: State, done: seq<Action>, l: Line, n: nat) returns (more: seq<Action>)
    requires Comes(s, done, l, Waiting(n, n)) && NoFailure(done)
    ensures Comes(s, more, l, Waiting(n, n).(decode := Copying(Has))) && NoFailure(more)
  {
    assert l.recv != l.demux && l.demux != l.decode && l.decode != l.recv;
    CopySteps(l, n, s.size);
    hide Comes, NoFailure, Steps, Waiting;
    more := Reaches(s, done, l, n, n);
    more := Advance(s, more, l, Waiting(n, n).(decode := Has), Copy(l.decode), Waiting(n, n).(decode := Copying(Has)));
  }

  /** Both queues fill up, with messages and with copies of them. */
  lemma {:induction false} FillsBoth(s: State, done: seq<Action>, l: Line, n: nat) returns (more: seq<Action>)
    requires Comes(s, done, l, Waiting(n, n)) && NoFailure(done) && n < s.size
    ensures Comes(s, more, l, Waiting(s.size - 1, s.size - 1)) && NoFailure(more)
    decreases s.size - n
  {
    more := done;
    if n + 1 < s.size {
      assert l.recv != l.demux && l.demux != l.decode && l.decode != l.recv;
      CopySteps(l, n, s.size);
      hide Comes, NoFailure, Steps, Waiting;
      var v := Waiting(n, n);
      more := Copies(s, more, l, n);
      more := Advance(s, more, l, v.(decode := Copying(Has)), PushCopy(l.decode, Fw(l)),
        v.(decode := Has, fw := n + 1));
      more := Advance(s, more, l, v.(decode := Has, fw := n + 1), Push(l.decode, DecodeQueues()),
        Waiting(n + 1, n + 1));
      more := FillsBoth(s, more, l, n + 1);
    }
  }

  lemma InitialComes(s: State, l: Line)
    requires Initial(s) && OnLine(s, l)
    ensures Comes(s, [], l, Waiting(0, 0))
  {
    InitialInv(s);
    hide Owned, Staged, Balanced;
  }

  lemma FullQueueRefuses(s: State, l: Line, v: Sketch)
    requires Drawn(s, l, v) && v.out + 1 == s.size
    ensures !Accepts(s, DecodeQueues())
  {
  }

  /** Every daemon gets there. From any start, with a receiver, a demultiplexer, a decoder and a shard, there is a run
      in which no push fails but one, on a full shard queue, and which ends, after the decoder's first increment,
      with shard_dropped above dropped. */
  lemma ShardDropsMayLead(s: State, l: Line) returns (actions: seq<Action>, n: nat)
    requires Initial(s) && OnLine(s, l)
    ensures Inv(s) && CanRun(s, actions) && After(s, actions).n.shardDropped > After(s, actions).n.dropped
    ensures |actions| == n + 3 && actions[n..] == [PushFails(l.decode), TestDrop(l.decode), CountShardDrop(l.decode)]
    ensures NoFailure(actions[..n]) && CanRun(s, actions[..n]) && !Accepts(After(s, actions[..n]), DecodeQueues())
  {
    InitialComes(s, l);
    assert l.recv != l.demux && l.demux != l.decode && l.decode != l.recv;
    var done := Fills(s, [], l, 0);
    var v := Waiting(s.size - 1, 0).(decode := Has);
    done := Reaches(s, done, l, s.size - 1, 0);
    FullQueueRefuses(After(s, done), l, v);
    n := |done|;
    hide May, Do, Enabled, Step, Shaped, Owned, Staged, Balanced, NoFailure, Accepts;
    actions := Failing(s, done, l, v);
    ComesCounted(s, actions, l, v.(decode := OwesDrop(true), shardDropped := 1));
    assert actions[..n] == done;
  }

  lemma FailureSteps(l: Line, v: Sketch, size: nat)
    requires v.decode == Has && l.recv != l.demux && l.demux != l.decode && l.decode != l.recv
    ensures Steps(l, v, size, PushFails(l.decode), v.(decode := DropTest))
    ensures Steps(l, v.(decode := DropTest), size, TestDrop(l.decode), v.(decode := OwesShardDrop))
    ensures Steps(l, v.(decode := OwesShardDrop), size, CountShardDrop(l.decode),
                  v.(decode := OwesDrop(true), shardDropped := v.shardDropped + 1))
  {
  }

  lemma ComesCounted(s: State, done: seq<Action>, l: Line, v: Sketch)
    requires Comes(s, done, l, v)
    ensures Inv(s) && CanRun(s, done)
    ensures After(s, done).n.shardDropped == v.shardDropped && After(s, done).n.dropped == v.dropped
  {
  }

  lemma ThreeMore<T>(s: seq<T>, a: T, b: T, c: T)
    ensures ((s + [a]) + [b]) + [c] == s + [a, b, c]
  {
  }

  /** The push fails, and the decoder counts. */
  lemma Failing(s: State, done: seq<Action>, l: Line, v: Sketch) returns (actions: seq<Action>)
    requires Comes(s, done, l, v) && v.decode == Has
    requires l.recv != l.demux && l.demux != l.decode && l.decode != l.recv
    ensures actions == done + [PushFails(l.decode), TestDrop(l.decode), CountShardDrop(l.decode)]
    ensures Comes(s, actions, l, v.(decode := OwesDrop(true), shardDropped := v.shardDropped + 1))
  {
    FailureSteps(l, v, s.size);
    hide *;
    actions := Advance(s, done, l, v, PushFails(l.decode), v.(decode := DropTest));
    actions := Advance(s, actions, l, v.(decode := DropTest), TestDrop(l.decode), v.(decode := OwesShardDrop));
    var w := v.(decode := OwesDrop(true), shardDropped := v.shardDropped + 1);
    actions := Advance(s, actions, l, v.(decode := OwesShardDrop), CountShardDrop(l.decode), w);
    ThreeMore(done, PushFails(l.decode), TestDrop(l.decode), CountShardDrop(l.decode));
  }
}
