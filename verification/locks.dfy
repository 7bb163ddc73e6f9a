/**
 The mutexes of `ossec-analysisd`: which ones each operation takes, in which order, and why no set of
 threads running these operations can deadlock.
 */
module Locks {

  datatype Lock =
    | QueueMutex(q: nat)
    | InputCloseMutex
    | StatsHourMutex
    | AccumulateMutex
    | DatabaseMutex(d: nat)
    | HostinfoMutex
    | HourRolloverMutex
    | DoDiffMutex
    | WriterThreadsMutex
    | RuleMutex(r: nat)
    | ListMutex(l: nat)
    | PrevMatchedMutex
    | LogIoMutex
    | FtsWriteLock
    | FtsMutex
    | SkTableMutex
    | SkAgentMutex(i: nat)
    | SkMaintMutex
    | RkTableMutex
    | RkAgentMutex(i: nat)

  /** A lock may be taken only above every lock already held. */
  function Rank(l: Lock): nat {
    match l
    case HourRolloverMutex => 1
    case DoDiffMutex => 1
    case WriterThreadsMutex => 1
    case FtsWriteLock => 1
    case SkTableMutex => 1
    case RkTableMutex => 1
    case RuleMutex(_) => 2
    case FtsMutex => 2
    case SkAgentMutex(_) => 2
    case RkAgentMutex(_) => 2
    case ListMutex(_) => 3
    case PrevMatchedMutex => 3
    case LogIoMutex => 3
    case SkMaintMutex => 3
    case _ => 0
  }

  const TOP_RANK: nat := 3

  datatype Cmd = Acquire(l: Lock) | Release(l: Lock)

  /** A program that takes locks upward only, releases what it holds, and ends with none. */
  ghost predicate Ordered(held: set<Lock>, program: seq<Cmd>)
    decreases |program|
  {
    if program == [] then held == {}
    else match program[0]
      case Acquire(l) => (forall h | h in held :: Rank(h) < Rank(l)) && Ordered(held + {l}, program[1..])
      case Release(l) => l in held && Ordered(held - {l}, program[1..])
  }

  // -------------------------------------------------------------------------------------------
  // The operations

  /** One path through an operation; the parameters say which objects it meets and which branches it takes. */
  datatype Op =
    | QueueCall(q: nat)
    | DrainQueue(q: nat, events: seq<bool>)
    | CloseInput
    | CheckHour
    | AccumulateGlobal
    | SearchDatabase(d: nat)
    | DecodeHostinfo
    | SearchShared(r: nat)
    | SearchHistory(r: nat, l: nat)
    | CountFired(r: nat)
    | CheckIgnoreTime(r: nat)
    | Rollover(rules: seq<nat>, newDay: bool)
    | DoDiff(r: nat)
    | RegisterMatched(groups: bool)
    | AddEvent(l: nat, victims: seq<bool>)
    | DestroyList(l: nat, victims: seq<bool>)
    | WriteAlert(r: nat, clearsContext: bool, json: bool)
    | SyncAlert(r: nat, clearsContext: bool, json: bool)
    | WriteArchive
    | FtsLookup
    | FtsAppend(compacts: bool)
    | FtsFlush
    | SyscheckInit
    | SyscheckSearch(i: nat)
    | SyscheckComplete(i: nat)
    | DecodeRootcheck(i: nat)

  function Enter(l: Lock, rest: seq<Cmd>): seq<Cmd> {
    [Acquire(l)] + rest
  }

  function Leave(l: Lock, rest: seq<Cmd>): seq<Cmd> {
    [Release(l)] + rest
  }

  /** One lock around work that takes no other. */
  function Within(l: Lock, rest: seq<Cmd>): seq<Cmd> {
    Enter(l, Leave(l, rest))
  }

  function MaybeWithin(b: bool, l: Lock, rest: seq<Cmd>): seq<Cmd> {
    if b then Within(l, rest) else rest
  }

  /** DumpLogstats: every rule that fired is locked in turn. */
  function EachRule(rules: seq<nat>, rest: seq<Cmd>): seq<Cmd> {
    if rules == [] then rest else Within(RuleMutex(rules[0]), EachRule(rules[1..], rest))
  }

  /** Free_Eventinfo of each event; only an event that is on a shared list takes the lists' lock. */
  function EachVictim(victims: seq<bool>, rest: seq<Cmd>): seq<Cmd> {
    if victims == [] then rest else MaybeWithin(victims[0], PrevMatchedMutex, EachVictim(victims[1..], rest))
  }

  /** OS_Log, then the JSON copy. */
  function AlertWritten(r: nat, clearsContext: bool, json: bool, rest: seq<Cmd>): seq<Cmd> {
    Within(LogIoMutex, MaybeWithin(clearsContext, RuleMutex(r), MaybeWithin(json, LogIoMutex, rest)))
  }

  /** The lock operations of `op`, followed by `rest`. */
  function Trace(op: Op, rest: seq<Cmd>): seq<Cmd> {
    match op
    case QueueCall(q) => Within(QueueMutex(q), rest)
    case DrainQueue(q, events) => Enter(QueueMutex(q), EachVictim(events, Leave(QueueMutex(q), rest)))
    case CloseInput => Within(InputCloseMutex, rest)
    case CheckHour => Within(StatsHourMutex, rest)
    case AccumulateGlobal => Within(AccumulateMutex, rest)
    case SearchDatabase(d) => Within(DatabaseMutex(d), rest)
    case DecodeHostinfo => Within(HostinfoMutex, rest)
    case SearchShared(r) => Enter(RuleMutex(r), Within(PrevMatchedMutex, Leave(RuleMutex(r), rest)))
    case SearchHistory(r, l) => Enter(RuleMutex(r), Within(ListMutex(l), Leave(RuleMutex(r), rest)))
    case CountFired(r) => Within(RuleMutex(r), rest)
    case CheckIgnoreTime(r) => Within(RuleMutex(r), rest)
    case Rollover(rules, newDay) =>
      Enter(HourRolloverMutex, EachRule(rules, MaybeWithin(newDay, LogIoMutex, Leave(HourRolloverMutex, rest))))
    case DoDiff(r) => Enter(DoDiffMutex, Within(RuleMutex(r), Leave(DoDiffMutex, rest)))
    case RegisterMatched(groups) => Within(PrevMatchedMutex, MaybeWithin(groups, PrevMatchedMutex, rest))
    case AddEvent(l, victims) => Within(ListMutex(l), EachVictim(victims, rest))
    case DestroyList(l, victims) => Within(ListMutex(l), EachVictim(victims, rest))
    case WriteAlert(r, clearsContext, json) => AlertWritten(r, clearsContext, json, rest)
    case SyncAlert(r, clearsContext, json) =>
      Enter(WriterThreadsMutex, AlertWritten(r, clearsContext, json, Leave(WriterThreadsMutex, rest)))
    case WriteArchive => Within(LogIoMutex, rest)
    case FtsLookup => Within(FtsMutex, rest)
    case FtsAppend(compacts) => Enter(FtsWriteLock, MaybeWithin(compacts, FtsMutex, Leave(FtsWriteLock, rest)))
    case FtsFlush => Within(FtsWriteLock, rest)
    case SyscheckInit => Within(SkTableMutex, rest)
    case SyscheckSearch(i) =>
      Enter(SkTableMutex, Enter(SkAgentMutex(i),
        Leave(SkTableMutex, Within(SkMaintMutex, Leave(SkAgentMutex(i), rest)))))
    case SyscheckComplete(i) =>
      Enter(SkTableMutex, Enter(SkAgentMutex(i), Leave(SkTableMutex, Leave(SkAgentMutex(i), rest))))
    case DecodeRootcheck(i) =>
      Enter(RkTableMutex, Enter(RkAgentMutex(i), Leave(RkTableMutex, Leave(RkAgentMutex(i), rest))))
  }

  /** What one thread does: any operations, any number of times. */
  function Program(ops: seq<Op>): seq<Cmd> {
    if ops == [] then [] else Trace(ops[0], Program(ops[1..]))
  }

  // -------------------------------------------------------------------------------------------
  // Every program is ordered

  ghost predicate Above(l: Lock, held: set<Lock>) {
    forall h | h in held :: Rank(h) < Rank(l)
  }

  lemma EnterOrdered(held: set<Lock>, l: Lock, rest: seq<Cmd>)
    requires Above(l, held) && Ordered(held + {l}, rest)
    ensures Ordered(held, Enter(l, rest))
  {
    assert Enter(l, rest)[1..] == rest;
  }

  lemma LeaveOrdered(held: set<Lock>, l: Lock, rest: seq<Cmd>)
    requires l in held && Ordered(held - {l}, rest)
    ensures Ordered(held, Leave(l, rest))
  {
    assert Leave(l, rest)[1..] == rest;
  }

  lemma WithinOrdered(held: set<Lock>, l: Lock, rest: seq<Cmd>)
    requires Above(l, held) && Ordered(held, rest)
    ensures Ordered(held, Within(l, rest))
  {
    assert held + {l} - {l} == held;
    LeaveOrdered(held + {l}, l, rest);
    EnterOrdered(held, l, Leave(l, rest));
  }

  lemma MaybeWithinOrdered(held: set<Lock>, b: bool, l: Lock, rest: seq<Cmd>)
    requires Above(l, held) && Ordered(held, rest)
    ensures Ordered(held, MaybeWithin(b, l, rest))
  {
    if b { WithinOrdered(held, l, rest); }
  }

  /** Holding one lock around ordered work that ends with leaving it. */
  lemma AroundOrdered(l: Lock, inner: seq<Cmd>)
    requires Ordered({l}, inner)
    ensures Ordered({}, Enter(l, inner))
  {
    assert {} + {l} == {l};
    EnterOrdered({}, l, inner);
  }

  lemma LastOrdered(l: Lock, rest: seq<Cmd>)
    requires Ordered({}, rest)
    ensures Ordered({l}, Leave(l, rest))
  {
    assert {l} - {l} == {};
    LeaveOrdered({l}, l, rest);
  }

  lemma {:induction false} EachRuleOrdered(rules: seq<nat>, rest: seq<Cmd>)
    requires Ordered({HourRolloverMutex}, rest)
    ensures Ordered({HourRolloverMutex}, EachRule(rules, rest))
  {
    if rules != [] {
      EachRuleOrdered(rules[1..], rest);
      WithinOrdered({HourRolloverMutex}, RuleMutex(rules[0]), EachRule(rules[1..], rest));
    }
  }

  lemma {:induction false} EachVictimOrdered(held: set<Lock>, victims: seq<bool>, rest: seq<Cmd>)
    requires Ordered(held, rest) && Above(PrevMatchedMutex, held)
    ensures Ordered(held, EachVictim(victims, rest))
  {
    if victims != [] {
      EachVictimOrdered(held, victims[1..], rest);
      MaybeWithinOrdered(held, victims[0], PrevMatchedMutex, EachVictim(victims[1..], rest));
    }
  }

  lemma AlertOrdered(held: set<Lock>, r: nat, clearsContext: bool, json: bool, rest: seq<Cmd>)
    requires held == {} || held == {WriterThreadsMutex}
    requires Ordered(held, rest)
    ensures Ordered(held, AlertWritten(r, clearsContext, json, rest))
  {
    MaybeWithinOrdered(held, json, LogIoMutex, rest);
    var p := MaybeWithin(json, LogIoMutex, rest);
    MaybeWithinOrdered(held, clearsContext, RuleMutex(r), p);
    WithinOrdered(held, LogIoMutex, MaybeWithin(clearsContext, RuleMutex(r), p));
  }

  /** The table lock is released before the agent's, so this is not a nesting of sections. */
  lemma HandOverOrdered(table: Lock, agent: Lock, inner: seq<Cmd>)
    requires Rank(table) < Rank(agent) && Ordered({agent}, inner)
    ensures Ordered({}, Enter(table, Enter(agent, Leave(table, inner))))
  {
    assert {table} + {agent} - {table} == {agent};
    LeaveOrdered({table} + {agent}, table, inner);
    EnterOrdered({table}, agent, Leave(table, inner));
    AroundOrdered(table, Enter(agent, Leave(table, inner)));
  }

  lemma RuleOpOrdered(op: Op, rest: seq<Cmd>)
    requires Ordered({}, rest) && (op.SearchShared? || op.SearchHistory? || op.Rollover? || op.DoDiff?)
    ensures Ordered({}, Trace(op, rest))
  {
    hide Ordered, Enter, Leave, Within, MaybeWithin;
    match op
    case SearchShared(r) =>
      LastOrdered(RuleMutex(r), rest);
      WithinOrdered({RuleMutex(r)}, PrevMatchedMutex, Leave(RuleMutex(r), rest));
      AroundOrdered(RuleMutex(r), Within(PrevMatchedMutex, Leave(RuleMutex(r), rest)));
    case SearchHistory(r, l) =>
      LastOrdered(RuleMutex(r), rest);
      WithinOrdered({RuleMutex(r)}, ListMutex(l), Leave(RuleMutex(r), rest));
      AroundOrdered(RuleMutex(r), Within(ListMutex(l), Leave(RuleMutex(r), rest)));
    case Rollover(rules, newDay) =>
      LastOrdered(HourRolloverMutex, rest);
      var p := MaybeWithin(newDay, LogIoMutex, Leave(HourRolloverMutex, rest));
      MaybeWithinOrdered({HourRolloverMutex}, newDay, LogIoMutex, Leave(HourRolloverMutex, rest));
      EachRuleOrdered(rules, p);
      AroundOrdered(HourRolloverMutex, EachRule(rules, p));
    case DoDiff(r) =>
      LastOrdered(DoDiffMutex, rest);
      WithinOrdered({DoDiffMutex}, RuleMutex(r), Leave(DoDiffMutex, rest));
      AroundOrdered(DoDiffMutex, Within(RuleMutex(r), Leave(DoDiffMutex, rest)));
  }

  lemma EventOpOrdered(op: Op, rest: seq<Cmd>)
    requires Ordered({}, rest)
    requires op.RegisterMatched? || op.AddEvent? || op.DestroyList? || op.DrainQueue? || op.WriteAlert? || op.SyncAlert?
    ensures Ordered({}, Trace(op, rest))
  {
    hide Ordered, Enter, Leave, Within, MaybeWithin, AlertWritten;
    match op
    case RegisterMatched(groups) =>
      MaybeWithinOrdered({}, groups, PrevMatchedMutex, rest);
      WithinOrdered({}, PrevMatchedMutex, MaybeWithin(groups, PrevMatchedMutex, rest));
    case AddEvent(l, victims) =>
      EachVictimOrdered({}, victims, rest);
      WithinOrdered({}, ListMutex(l), EachVictim(victims, rest));
    case DestroyList(l, victims) =>
      EachVictimOrdered({}, victims, rest);
      WithinOrdered({}, ListMutex(l), EachVictim(victims, rest));
    case DrainQueue(q, events) =>
      LastOrdered(QueueMutex(q), rest);
      EachVictimOrdered({QueueMutex(q)}, events, Leave(QueueMutex(q), rest));
      AroundOrdered(QueueMutex(q), EachVictim(events, Leave(QueueMutex(q), rest)));
    case WriteAlert(r, clearsContext, json) =>
      AlertOrdered({}, r, clearsContext, json, rest);
    case SyncAlert(r, clearsContext, json) =>
      LastOrdered(WriterThreadsMutex, rest);
      AlertOrdered({WriterThreadsMutex}, r, clearsContext, json, Leave(WriterThreadsMutex, rest));
      AroundOrdered(WriterThreadsMutex, AlertWritten(r, clearsContext, json, Leave(WriterThreadsMutex, rest)));
  }

  lemma StoreOpOrdered(op: Op, rest: seq<Cmd>)
    requires Ordered({}, rest)
    requires op.FtsAppend? || op.SyscheckSearch? || op.SyscheckComplete? || op.DecodeRootcheck?
    ensures Ordered({}, Trace(op, rest))
  {
    hide Ordered, Enter, Leave, Within, MaybeWithin;
    match op
    case FtsAppend(compacts) =>
      LastOrdered(FtsWriteLock, rest);
      MaybeWithinOrdered({FtsWriteLock}, compacts, FtsMutex, Leave(FtsWriteLock, rest));
      AroundOrdered(FtsWriteLock, MaybeWithin(compacts, FtsMutex, Leave(FtsWriteLock, rest)));
    case SyscheckSearch(i) =>
      LastOrdered(SkAgentMutex(i), rest);
      WithinOrdered({SkAgentMutex(i)}, SkMaintMutex, Leave(SkAgentMutex(i), rest));
      HandOverOrdered(SkTableMutex, SkAgentMutex(i), Within(SkMaintMutex, Leave(SkAgentMutex(i), rest)));
    case SyscheckComplete(i) =>
      LastOrdered(SkAgentMutex(i), rest);
      HandOverOrdered(SkTableMutex, SkAgentMutex(i), Leave(SkAgentMutex(i), rest));
    case DecodeRootcheck(i) =>
      LastOrdered(RkAgentMutex(i), rest);
      HandOverOrdered(RkTableMutex, RkAgentMutex(i), Leave(RkAgentMutex(i), rest));
  }

  lemma OpOrdered(op: Op, rest: seq<Cmd>)
    requires Ordered({}, rest)
    ensures Ordered({}, Trace(op, rest))
  {
    if op.SearchShared? || op.SearchHistory? || op.Rollover? || op.DoDiff? {
      RuleOpOrdered(op, rest);
    } else if op.RegisterMatched? || op.AddEvent? || op.DestroyList? || op.DrainQueue? || op.WriteAlert?
      || op.SyncAlert? {
      EventOpOrdered(op, rest);
    } else if op.FtsAppend? || op.SyscheckSearch? || op.SyscheckComplete? || op.DecodeRootcheck? {
      StoreOpOrdered(op, rest);
    } else {
      SectionOrdered(op, rest);
    }
  }

  /** The operations that hold one lock at a time and take it once. */
  lemma SectionOrdered(op: Op, rest: seq<Cmd>)
    requires Ordered({}, rest)
    requires !(op.SearchShared? || op.SearchHistory? || op.Rollover? || op.DoDiff?)
    requires !(op.RegisterMatched? || op.AddEvent? || op.DestroyList? || op.DrainQueue? || op.WriteAlert?
      || op.SyncAlert?)
    requires !(op.FtsAppend? || op.SyscheckSearch? || op.SyscheckComplete? || op.DecodeRootcheck?)
    ensures Ordered({}, Trace(op, rest))
  {
    hide Ordered, Enter, Leave, Within;
    var l :=
      match op
      case QueueCall(q) => QueueMutex(q)
      case CloseInput => InputCloseMutex
      case CheckHour => StatsHourMutex
      case AccumulateGlobal => AccumulateMutex
      case SearchDatabase(d) => DatabaseMutex(d)
      case CountFired(r) => RuleMutex(r)
      case CheckIgnoreTime(r) => RuleMutex(r)
      case WriteArchive => LogIoMutex
      case FtsLookup => FtsMutex
      case FtsFlush => FtsWriteLock
      case SyscheckInit => SkTableMutex
      case _ => HostinfoMutex;
    WithinOrdered({}, l, rest);
  }

  lemma {:induction false} ProgramOrdered(ops: seq<Op>)
    ensures Ordered({}, Program(ops))
  {
    if ops != [] {
      ProgramOrdered(ops[1..]);
      OpOrdered(ops[0], Program(ops[1..]));
    }
  }

  // -------------------------------------------------------------------------------------------
  // No deadlock

  /** What a thread holds, and what it still has to do. */
  datatype Thread = Thread(held: set<Lock>, todo: seq<Cmd>)

  /** Nobody holds a lock together with another, and every thread goes on in order. */
  ghost predicate Inv(s: seq<Thread>) {
    && (forall t {:trigger s[t]} | 0 <= t < |s| :: Ordered(s[t].held, s[t].todo))
    && (forall t, u, l {:trigger l in s[t].held, l in s[u].held} | 0 <= t < |s| && 0 <= u < |s| ::
          l in s[t].held && l in s[u].held ==> t == u)
  }

  /** A thread can go on unless it waits for a lock that a thread holds; the mutexes are not recursive. */
  ghost predicate CanStep(s: seq<Thread>, t: nat) {
    t < |s| && s[t].todo != []
    && (s[t].todo[0].Acquire? ==> forall u {:trigger s[u]} | 0 <= u < |s| :: s[t].todo[0].l !in s[u].held)
  }

  function Step(s: seq<Thread>, t: nat): seq<Thread>
    requires t < |s| && s[t].todo != []
  {
    match s[t].todo[0]
    case Acquire(l) => s[t := Thread(s[t].held + {l}, s[t].todo[1..])]
    case Release(l) => s[t := Thread(s[t].held - {l}, s[t].todo[1..])]
  }

  lemma StepInv(s: seq<Thread>, t: nat)
    requires Inv(s) && CanStep(s, t)
    ensures Inv(Step(s, t))
  {
  }

  /** From a thread that is not finished, following who waits for whom climbs the ranks, so it ends at a
      thread that can go on. */
  lemma {:induction false} SomebodyCanStep(s: seq<Thread>, t: nat) returns (u: nat)
    requires Inv(s) && t < |s| && s[t].todo != []
    ensures CanStep(s, u)
    decreases if s[t].todo[0].Acquire? then TOP_RANK - Rank(s[t].todo[0].l) + 1 else 0
  {
    if CanStep(s, t) {
      return t;
    }
    var l := s[t].todo[0].l;
    var v :| 0 <= v < |s| && l in s[v].held;
    assert Ordered(s[v].held, s[v].todo);
    u := SomebodyCanStep(s, v);
  }

  ghost predicate CanRun(s: seq<Thread>, order: seq<nat>)
    decreases |order|
  {
    order == [] || (CanStep(s, order[0]) && CanRun(Step(s, order[0]), order[1..]))
  }

  ghost function After(s: seq<Thread>, order: seq<nat>): seq<Thread>
    requires CanRun(s, order)
    decreases |order|
  {
    if order == [] then s else After(Step(s, order[0]), order[1..])
  }

  lemma {:induction false} RunInv(s: seq<Thread>, order: seq<nat>)
    requires Inv(s) && CanRun(s, order)
    ensures Inv(After(s, order)) && |After(s, order)| == |s|
    decreases |order|
  {
    if order != [] {
      StepInv(s, order[0]);
      RunInv(Step(s, order[0]), order[1..]);
    }
  }

  /** The threads of the daemon before their first lock. */
  function Start(programs: seq<seq<Op>>): (s: seq<Thread>)
    ensures |s| == |programs|
    ensures forall t | 0 <= t < |s| :: s[t] == Thread({}, Program(programs[t]))
  {
    seq(|programs|, t requires 0 <= t < |programs| => Thread({}, Program(programs[t])))
  }

  /** Deadlock freedom: whatever operations any number of threads run, and however they interleave, as
      long as one of them is not finished one of them can go on. */
  lemma NoDeadlock(programs: seq<seq<Op>>, order: seq<nat>, t: nat) returns (u: nat)
    requires CanRun(Start(programs), order)
    requires t < |After(Start(programs), order)| && After(Start(programs), order)[t].todo != []
    ensures CanStep(After(Start(programs), order), u)
  {
    var s := Start(programs);
    forall i | 0 <= i < |s| ensures Ordered(s[i].held, s[i].todo) {
      ProgramOrdered(programs[i]);
    }
    RunInv(s, order);
    u := SomebodyCanStep(After(s, order), t);
  }

  function Remaining(s: seq<Thread>): nat {
    if s == [] then 0 else |s[0].todo| + Remaining(s[1..])
  }

  lemma {:induction false} RemainingUpdated(s: seq<Thread>, t: nat, x: Thread)
    requires t < |s|
    ensures Remaining(s[t := x]) == Remaining(s) - |s[t].todo| + |x.todo|
  {
    if t > 0 {
      RemainingUpdated(s[1..], t - 1, x);
      assert s[t := x][1..] == s[1..][t - 1 := x];
    } else {
      assert s[t := x][1..] == s[1..];
    }
  }

  /** Every run can be finished: no choice of steps leads where some thread waits for ever. */
  lemma {:induction false} EverybodyCanFinish(s: seq<Thread>) returns (order: seq<nat>)
    requires Inv(s)
    ensures CanRun(s, order) && |order| == Remaining(s)
    ensures forall t | 0 <= t < |After(s, order)| :: After(s, order)[t] == Thread({}, [])
    decreases Remaining(s)
  {
    if t :| 0 <= t < |s| && s[t].todo != [] {
      var u := SomebodyCanStep(s, t);
      StepInv(s, u);
      RemainingUpdated(s, u, Step(s, u)[u]);
      var rest := EverybodyCanFinish(Step(s, u));
      order := [u] + rest;
      assert order[1..] == rest;
    } else {
      NothingRemains(s);
      order := [];
    }
  }

  lemma {:induction false} NothingRemains(s: seq<Thread>)
    requires forall t | 0 <= t < |s| :: s[t].todo == []
    ensures Remaining(s) == 0
  {
    if s != [] { NothingRemains(s[1..]); }
  }

  // -------------------------------------------------------------------------------------------
  // What is held when

  /** The locks held after the first `n` commands. */
  function Holding(held: set<Lock>, program: seq<Cmd>, n: nat): set<Lock>
    requires n <= |program|
    decreases n
  {
    if n == 0 then held
    else match program[0]
      case Acquire(l) => Holding(held + {l}, program[1..], n - 1)
      case Release(l) => Holding(held - {l}, program[1..], n - 1)
  }

  lemma {:induction false} NotTakenAgain(held: set<Lock>, program: seq<Cmd>, n: nat, l: Lock)
    requires n <= |program| && l !in held && Acquire(l) !in program
    ensures l !in Holding(held, program, n)
    decreases n
  {
    if n > 0 {
      assert program[0] in program && forall c | c in program[1..] :: c in program;
      match program[0]
      case Acquire(k) => NotTakenAgain(held + {k}, program[1..], n - 1, l);
      case Release(k) => NotTakenAgain(held - {k}, program[1..], n - 1, l);
    }
  }

  lemma {:induction false} VictimsTakeNoOther(victims: seq<bool>, l: Lock)
    requires l != PrevMatchedMutex
    ensures Acquire(l) !in EachVictim(victims, [])
  {
    if victims != [] {
      VictimsTakeNoOther(victims[1..], l);
    }
  }

  /** What an insertion drops from a history, and what is left when it is destroyed, is freed after the mutex of the
      history is released. */
  lemma FreedUnlocked(op: Op, n: nat)
    requires (op.AddEvent? || op.DestroyList?) && 2 <= n <= |Trace(op, [])|
    ensures Trace(op, [])[0] == Acquire(ListMutex(op.l)) && Holding({}, Trace(op, []), 1) == {ListMutex(op.l)}
    ensures ListMutex(op.l) !in Holding({}, Trace(op, []), n)
  {
    var p, freeing := Trace(op, []), EachVictim(op.victims, []);
    assert p == [Acquire(ListMutex(op.l))] + ([Release(ListMutex(op.l))] + freeing);
    assert p[1..] == [Release(ListMutex(op.l))] + freeing && p[1..][1..] == freeing;
    VictimsTakeNoOther(op.victims, ListMutex(op.l));
    NotTakenAgain({}, freeing, n - 2, ListMutex(op.l));
    assert {ListMutex(op.l)} - {ListMutex(op.l)} == {} && {} + {ListMutex(op.l)} == {ListMutex(op.l)};
  }

  /** The locks a program takes, in order. */
  function Taken(program: seq<Cmd>): seq<Lock> {
    if program == [] then []
    else (if program[0].Acquire? then [program[0].l] else []) + Taken(program[1..])
  }

  lemma {:induction false} TakenInTurn(p: seq<Cmd>, q: seq<Cmd>)
    ensures Taken(p + q) == Taken(p) + Taken(q)
  {
    if p == [] {
      assert p + q == q;
    } else {
      TakenInTurn(p[1..], q);
      assert (p + q)[0] == p[0] && (p + q)[1..] == p[1..] + q;
      var l := if p[0].Acquire? then [p[0].l] else [];
      assert l + (Taken(p[1..]) + Taken(q)) == (l + Taken(p[1..])) + Taken(q);
    }
  }

  /** One mutex after the other, as often as events that leave shared lists. */
  function ForEach(victims: seq<bool>): seq<Lock> {
    if victims == [] then [] else (if victims[0] then [PrevMatchedMutex] else []) + ForEach(victims[1..])
  }

  lemma {:induction false} VictimsTake(victims: seq<bool>, rest: seq<Cmd>)
    ensures Taken(EachVictim(victims, rest)) == ForEach(victims) + Taken(rest)
  {
    if victims != [] {
      VictimsTake(victims[1..], rest);
      WithinTakes(PrevMatchedMutex, EachVictim(victims[1..], rest));
      hide Taken, Within;
    }
  }

  lemma WithinTakes(l: Lock, rest: seq<Cmd>)
    ensures Taken(Within(l, rest)) == [l] + Taken(rest)
    ensures Taken(Enter(l, rest)) == [l] + Taken(rest) && Taken(Leave(l, rest)) == Taken(rest)
  {
    assert Within(l, rest)[1..] == Leave(l, rest) && Leave(l, rest)[1..] == rest && Enter(l, rest)[1..] == rest;
  }

  /** The locks of each operation. Every change of a shared list and every search of one is under the mutex of the
      shared lists, every insertion into a history under the mutex of that history, and an event that is on a shared
      list is freed under the former. */
  function LocksOf(op: Op): seq<Lock> {
    match op
    case QueueCall(q) => [QueueMutex(q)]
    case DrainQueue(q, events) => [QueueMutex(q)] + ForEach(events)
    case CloseInput => [InputCloseMutex]
    case CheckHour => [StatsHourMutex]
    case AccumulateGlobal => [AccumulateMutex]
    case SearchDatabase(d) => [DatabaseMutex(d)]
    case DecodeHostinfo => [HostinfoMutex]
    case SearchShared(r) => [RuleMutex(r), PrevMatchedMutex]
    case SearchHistory(r, l) => [RuleMutex(r), ListMutex(l)]
    case CountFired(r) => [RuleMutex(r)]
    case CheckIgnoreTime(r) => [RuleMutex(r)]
    case Rollover(rules, newDay) =>
      [HourRolloverMutex] + seq(|rules|, i requires 0 <= i < |rules| => RuleMutex(rules[i]))
        + (if newDay then [LogIoMutex] else [])
    case DoDiff(r) => [DoDiffMutex, RuleMutex(r)]
    case RegisterMatched(groups) => [PrevMatchedMutex] + (if groups then [PrevMatchedMutex] else [])
    case AddEvent(l, victims) => [ListMutex(l)] + ForEach(victims)
    case DestroyList(l, victims) => [ListMutex(l)] + ForEach(victims)
    case WriteAlert(r, clears, json) =>
      [LogIoMutex] + (if clears then [RuleMutex(r)] else []) + (if json then [LogIoMutex] else [])
    case SyncAlert(r, clears, json) =>
      [WriterThreadsMutex, LogIoMutex] + (if clears then [RuleMutex(r)] else []) + (if json then [LogIoMutex] else [])
    case WriteArchive => [LogIoMutex]
    case FtsLookup => [FtsMutex]
    case FtsAppend(compacts) => [FtsWriteLock] + (if compacts then [FtsMutex] else [])
    case FtsFlush => [FtsWriteLock]
    case SyscheckInit => [SkTableMutex]
    case SyscheckSearch(i) => [SkTableMutex, SkAgentMutex(i), SkMaintMutex]
    case SyscheckComplete(i) => [SkTableMutex, SkAgentMutex(i)]
    case DecodeRootcheck(i) => [RkTableMutex, RkAgentMutex(i)]
  }

  lemma {:induction false} RulesTake(rules: seq<nat>, rest: seq<Cmd>)
    ensures Taken(EachRule(rules, rest))
      == seq(|rules|, i requires 0 <= i < |rules| => RuleMutex(rules[i])) + Taken(rest)
  {
    if rules != [] {
      RulesTake(rules[1..], rest);
      WithinTakes(RuleMutex(rules[0]), EachRule(rules[1..], rest));
      assert seq(|rules|, i requires 0 <= i < |rules| => RuleMutex(rules[i])) == [RuleMutex(rules[0])]
        + seq(|rules[1..]|, i requires 0 <= i < |rules[1..]| => RuleMutex(rules[1..][i]));
    }
  }

  /** What the pieces of a program take. */
  lemma PiecesTake()
    ensures forall l, p {:trigger Taken(Enter(l, p))} :: Taken(Enter(l, p)) == [l] + Taken(p)
    ensures forall l, p {:trigger Taken(Leave(l, p))} :: Taken(Leave(l, p)) == Taken(p)
    ensures forall l, p {:trigger Taken(Within(l, p))} :: Taken(Within(l, p)) == [l] + Taken(p)
    ensures forall b, l, p {:trigger Taken(MaybeWithin(b, l, p))} ::
      Taken(MaybeWithin(b, l, p)) == (if b then [l] else []) + Taken(p)
    ensures forall vs, p {:trigger Taken(EachVictim(vs, p))} :: Taken(EachVictim(vs, p)) == ForEach(vs) + Taken(p)
  {
    forall l, p
      ensures Taken(Enter(l, p)) == [l] + Taken(p) && Taken(Leave(l, p)) == Taken(p)
      ensures Taken(Within(l, p)) == [l] + Taken(p)
    {
      WithinTakes(l, p);
    }
    forall b, l, p ensures Taken(MaybeWithin(b, l, p)) == (if b then [l] else []) + Taken(p) {
      WithinTakes(l, p);
    }
    forall vs, p ensures Taken(EachVictim(vs, p)) == ForEach(vs) + Taken(p) {
      VictimsTake(vs, p);
    }
  }

  lemma RuleOpTakes(op: Op, rest: seq<Cmd>)
    requires op.SearchShared? || op.SearchHistory? || op.DoDiff?
    ensures Taken(Trace(op, rest)) == LocksOf(op) + Taken(rest)
  {
    PiecesTake();
    hide Taken, Enter, Leave, Within, MaybeWithin, EachVictim, EachRule;
  }

  lemma RolloverTakes(rules: seq<nat>, newDay: bool, rest: seq<Cmd>)
    ensures Taken(Trace(Rollover(rules, newDay), rest)) == LocksOf(Rollover(rules, newDay)) + Taken(rest)
  {
    var last := Leave(HourRolloverMutex, rest);
    var end := MaybeWithin(newDay, LogIoMutex, last);
    WithinTakes(HourRolloverMutex, rest);
    WithinTakes(HourRolloverMutex, EachRule(rules, end));
    WithinTakes(LogIoMutex, last);
    RulesTake(rules, end);
    hide Taken, Enter, Leave, Within, EachRule;
  }

  lemma EventOpTakes(op: Op, rest: seq<Cmd>)
    requires op.RegisterMatched? || op.AddEvent? || op.DestroyList? || op.DrainQueue?
    ensures Taken(Trace(op, rest)) == LocksOf(op) + Taken(rest)
  {
    PiecesTake();
    hide Taken, Enter, Leave, Within, MaybeWithin, EachVictim, EachRule, ForEach;
  }

  lemma AlertOpTakes(op: Op, rest: seq<Cmd>)
    requires op.WriteAlert? || op.SyncAlert?
    ensures Taken(Trace(op, rest)) == LocksOf(op) + Taken(rest)
  {
    PiecesTake();
    hide Taken, Enter, Leave, Within, MaybeWithin, EachVictim, EachRule, ForEach;
  }

  lemma StoreOpTakes(op: Op, rest: seq<Cmd>)
    requires op.FtsAppend? || op.SyscheckSearch? || op.SyscheckComplete? || op.DecodeRootcheck?
    ensures Taken(Trace(op, rest)) == LocksOf(op) + Taken(rest)
  {
    PiecesTake();
    hide Taken, Enter, Leave, Within, MaybeWithin, EachVictim, EachRule, ForEach;
  }

  /** The operations take these locks, in this order. */
  lemma TakesItsLocks(op: Op, rest: seq<Cmd>)
    ensures Taken(Trace(op, rest)) == LocksOf(op) + Taken(rest)
  {
    if op.Rollover? {
      RolloverTakes(op.rules, op.newDay, rest);
    } else if op.SearchShared? || op.SearchHistory? || op.DoDiff? {
      RuleOpTakes(op, rest);
    } else if op.RegisterMatched? || op.AddEvent? || op.DestroyList? || op.DrainQueue? {
      EventOpTakes(op, rest);
    } else if op.WriteAlert? || op.SyncAlert? {
      AlertOpTakes(op, rest);
    } else if op.FtsAppend? || op.SyscheckSearch? || op.SyscheckComplete? || op.DecodeRootcheck? {
      StoreOpTakes(op, rest);
    } else {
      PiecesTake();
      hide Taken, Enter, Leave, Within, MaybeWithin, EachVictim, EachRule, ForEach;
    }
  }
}
