/** Closing the input descriptor when several threads ask for it at once. */
module InputClose {
  import opened Wrappers

  /** Where a caller of the closing function stands; `Read`, `Published` and `Closing` carry the local
      copy of the descriptor. */
  datatype Caller = Waiting | Locked | Read(fd: int) | Published(fd: int) | Closing(fd: int) | Returned

  /** `open` is the published descriptor, `closed` lists the descriptors that were closed. */
  datatype State = State(open: int, holder: Option<nat>, callers: seq<Caller>, closed: seq<int>)

  predicate CanStep(s: State, c: nat) {
    c < |s.callers| && s.callers[c] != Returned && (s.callers[c] == Waiting ==> s.holder == None)
  }

  function Step(s: State, c: nat): State
    requires CanStep(s, c)
  {
    match s.callers[c]
    case Waiting => s.(holder := Some(c), callers := s.callers[c := Locked])
    case Locked => s.(callers := s.callers[c := Read(s.open)])
    case Read(fd) =>
      if fd < 0 then s.(holder := None, callers := s.callers[c := Returned])
      else s.(open := -1, callers := s.callers[c := Published(fd)])
    case Published(fd) => s.(holder := None, callers := s.callers[c := Closing(fd)])
    case Closing(fd) => s.(closed := s.closed + [fd], callers := s.callers[c := Returned])
    case Returned => s
  }

  /** Whether a caller has taken the descriptor and not closed it yet. */
  function Takes(x: Caller): nat {
    if x.Published? || x.Closing? then 1 else 0
  }

  function Taken(callers: seq<Caller>): nat {
    if callers == [] then 0 else Takes(callers[0]) + Taken(callers[1..])
  }

  lemma {:induction false} TakenUpdated(callers: seq<Caller>, c: nat, x: Caller)
    requires c < |callers|
    ensures Taken(callers[c := x]) == Taken(callers) - Takes(callers[c]) + Takes(x)
  {
    if c > 0 {
      TakenUpdated(callers[1..], c - 1, x);
      assert callers[c := x][1..] == callers[1..][c - 1 := x];
    } else {
      assert callers[c := x][1..] == callers[1..];
    }
  }

  predicate HoldsLock(x: Caller) {
    x.Locked? || x.Read? || x.Published?
  }

  /** The descriptor `fd` is published, in the hands of one caller, or closed: one of the three, once. */
  ghost predicate Inv(s: State, fd: int) {
    && 0 <= fd && (s.open == fd || s.open == -1)
    && (forall c {:trigger s.callers[c]} | 0 <= c < |s.callers| :: HoldsLock(s.callers[c]) <==> s.holder == Some(c))
    && (forall c {:trigger s.callers[c]} | 0 <= c < |s.callers| :: s.callers[c].Read? ==> s.callers[c].fd == s.open)
    && (forall c {:trigger s.callers[c]} | 0 <= c < |s.callers| :: Takes(s.callers[c]) == 1 ==> s.callers[c].fd == fd)
    && (forall k | 0 <= k < |s.closed| :: s.closed[k] == fd)
    && |s.closed| + Taken(s.callers) + (if s.open == fd then 1 else 0) == 1
    && (forall c {:trigger s.callers[c]} | 0 <= c < |s.callers| && s.callers[c] == Returned :: s.open == -1)
  }

  lemma StepInv(s: State, fd: int, c: nat)
    requires Inv(s, fd) && CanStep(s, c)
    ensures Inv(Step(s, c), fd)
  {
    var r := Step(s, c);
    TakenUpdated(s.callers, c, r.callers[c]);
  }

  ghost predicate CanRun(s: State, order: seq<nat>)
    decreases |order|
  {
    order == [] || (CanStep(s, order[0]) && CanRun(Step(s, order[0]), order[1..]))
  }

  ghost function After(s: State, order: seq<nat>): State
    requires CanRun(s, order)
    decreases |order|
  {
    if order == [] then s else After(Step(s, order[0]), order[1..])
  }

  lemma {:induction false} RunInv(s: State, fd: int, order: seq<nat>)
    requires Inv(s, fd) && CanRun(s, order)
    ensures Inv(After(s, order), fd) && |After(s, order).callers| == |s.callers|
    decreases |order|
  {
    if order != [] {
      StepInv(s, fd, order[0]);
      RunInv(Step(s, order[0]), fd, order[1..]);
    }
  }

  lemma {:induction false} NoneTaken(callers: seq<Caller>)
    requires forall c | 0 <= c < |callers| :: Takes(callers[c]) == 0
    ensures Taken(callers) == 0
  {
    if callers != [] {
      NoneTaken(callers[1..]);
    }
  }

  /** However many callers there are and however they interleave, the descriptor is closed at most once,
      nothing else is closed, and when a caller exists and all have returned it is closed exactly once. */
  lemma ClosedOnce(fd: int, callers: nat, order: seq<nat>)
    requires 0 <= fd
    requires CanRun(State(fd, None, seq(callers, _ => Waiting), []), order)
    ensures var r := After(State(fd, None, seq(callers, _ => Waiting), []), order);
      && (r.closed == [] || r.closed == [fd])
      && |r.callers| == callers
      && (callers > 0 && (forall c | 0 <= c < callers :: r.callers[c] == Returned) ==> r.closed == [fd])
  {
    var s := State(fd, None, seq(callers, _ => Waiting), []);
    NoneTaken(s.callers);
    RunInv(s, fd, order);
    var r := After(s, order);
    if forall c | 0 <= c < |r.callers| :: r.callers[c] == Returned {
      NoneTaken(r.callers);
      assert |r.callers| > 0 ==> r.callers[0] == Returned;
    }
  }
}
