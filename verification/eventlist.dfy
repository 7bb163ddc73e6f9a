/**
 The history of one match shard: a doubly linked list, newest event first, that evicts from its old
 end and frees what it evicts only after its own lock is released.
 */
module EventLists {
  import opened History
  import opened Events
  import opened SharedLists

  class EventNode {
    const event: Eventinfo
    var next: EventNode?
    var prev: EventNode?
    ghost var freed: bool

    constructor (event: Eventinfo, next: EventNode?)
      ensures this.event == event && this.next == next && prev == null && !freed
    {
      this.event, this.next, prev, freed := event, next, null, false;
    }
  }

  /** The events of a run of nodes. */
  ghost function EventsOf(ns: seq<EventNode>): (es: seq<Eventinfo>)
    ensures |es| == |ns|
    ensures forall i {:trigger es[i]} {:trigger ns[i]} | 0 <= i < |ns| :: es[i] == ns[i].event
  {
    seq(|ns|, i requires 0 <= i < |ns| => ns[i].event)
  }

  function FirstOf<T>(s: seq<T>, n: nat): seq<T> {
    if n <= |s| then s[..n] else s
  }

  function RestOf<T>(s: seq<T>, n: nat): seq<T> {
    if n <= |s| then s[n..] else []
  }

  /** The live events without some. */
  ghost function Less(live: set<Eventinfo>, es: seq<Eventinfo>): set<Eventinfo> {
    live - set e | e in es
  }

  lemma LessMore(live: set<Eventinfo>, chain: seq<EventNode>, k: nat)
    requires k < |chain|
    ensures Less(live, EventsOf(chain[..k + 1])) == Less(live, EventsOf(chain[..k])) - {chain[k].event}
  {
    assert EventsOf(chain[..k + 1]) == EventsOf(chain[..k]) + [chain[k].event];
  }

  lemma NoneOfNothing(linked: set<OSListNode>)
    ensures NodesLess(linked, EventsOf([])) == linked
  {
  }

  lemma LinkedMore(linked: set<OSListNode>, chain: seq<EventNode>, k: nat)
    requires k < |chain|
    ensures NodesLess(NodesLess(linked, EventsOf(chain[..k])), [chain[k].event])
      == NodesLess(linked, EventsOf(chain[..k + 1]))
    ensures NodesLess(linked, EventsOf(chain[..k + 1])) <= NodesLess(linked, EventsOf(chain[..k])) <= linked
  {
    NodesLessMore(linked, EventsOf(chain[..k]), chain[k].event);
    assert EventsOf(chain[..k + 1]) == EventsOf(chain[..k]) + [chain[k].event];
  }

  /** An event later in the chain is still live. */
  lemma StillLive(live: set<Eventinfo>, chain: seq<EventNode>, k: nat)
    requires k < |chain| && Owned(live, chain)
    ensures chain[k].event in live && chain[k].event in Less(live, EventsOf(chain[..k]))
  {
  }

  lemma NothingLess(live: set<Eventinfo>)
    ensures Less(live, EventsOf([])) == live
  {
  }

  /** `head` starts a chain that runs through exactly these nodes. */
  ghost predicate Chain(head: EventNode?, ns: seq<EventNode>)
    reads ns
  {
    && head == (if ns == [] then null else ns[0])
    && (forall i {:trigger ns[i].next} | 0 <= i < |ns| :: ns[i].next == if i + 1 < |ns| then ns[i + 1] else null)
    && (forall i, j | 0 <= i < j < |ns| :: ns[i] != ns[j])
    && (forall i | 0 <= i < |ns| :: !ns[i].freed)
  }

  lemma ChainPush(n: EventNode, head: EventNode?, ns: seq<EventNode>)
    requires Chain(head, ns) && n !in ns && n.next == head && !n.freed
    ensures Chain(n, [n] + ns)
  {
    assert forall i {:trigger ns[i]} | 0 <= i < |ns| :: ([n] + ns)[i + 1] == ns[i];
  }

  lemma NoChain()
    ensures Chain(null, [])
  {
  }

  twostate lemma ChainKept(new head: EventNode?, ns: seq<EventNode>)
    requires old(allocated(head) && Chain(head, ns)) && forall n | n in ns :: unchanged(n)
    ensures Chain(head, ns)
  {
    forall i | 0 <= i < |ns| ensures unchanged(ns[i]) {
      assert ns[i] in ns;
    }
  }

  /** What a chain of unlinked nodes may be freed under: its events are live and each occurs once. */
  ghost predicate Owned(live: set<Eventinfo>, ns: seq<EventNode>) {
    && (forall i | 0 <= i < |ns| :: ns[i].event in live)
    && (forall i, j | 0 <= i < j < |ns| :: ns[i].event != ns[j].event)
  }

  /** The registry, where `live` and `linked` were, lost exactly these events and their list nodes. */
  ghost predicate Lost(r: Registry, live: set<Eventinfo>, linked: set<OSListNode>, gone: seq<Eventinfo>)
    reads r, gone`freed
  {
    && r.live == Less(live, gone) && r.linked == NodesLess(linked, gone)
    && forall i {:trigger gone[i]} | 0 <= i < |gone| :: gone[i].freed
  }

  /** The freeing loop of OS_AddEvent_List and OS_EventList_Destroy, which runs after the list lock is
      released: every event and every node of the chain is freed, and nothing else. */
  method FreeChain(head: EventNode?, r: Registry, ghost chain: seq<EventNode>)
    requires r.Valid() && Chain(head, chain) && Owned(r.live, chain)
    modifies r`linked, r`live, r.lists, r.linked, r.live`sidNode, r.live`groupNodes, r.live`freed, chain`freed
    ensures r.Valid()
    ensures Lost(r, old(r.live), old(r.linked), EventsOf(chain))
    ensures forall n | n in chain :: n.freed
    ensures forall l | l in r.lists :: l.nodes == Only(old(l.nodes), r.linked)
  {
    hide Registry.Valid, Registry.ListsOk, Registry.NoNodes, EventsOf, Less, Owned, NodesLess, Only;
    var node := head;
    ghost var k := 0;
    NothingLess(r.live);
    r.LiveListsOk();
    r.NothingLost();
    NoneOfNothing(r.linked);
    assert chain[..0] == [];
    while node != null
      invariant k <= |chain| && node == if k < |chain| then chain[k] else null
      invariant r.Valid() && r.linked == NodesLess(old(r.linked), EventsOf(chain[..k])) && r.linked <= old(r.linked)
      invariant forall l | l in r.lists :: l.nodes == Only(old(l.nodes), r.linked)
      invariant r.live == Less(old(r.live), EventsOf(chain[..k]))
      invariant forall i | 0 <= i < k :: chain[i].freed && chain[i].event.freed
      invariant forall i | k <= i < |chain| :: !chain[i].freed
      decreases |chain| - k
    {
      var next := node.next;
      StillLive(old(r.live), chain, k);
      LessMore(old(r.live), chain, k);
      ghost var was := r.linked;
      r.FreeEvent(node.event);
      LinkedMore(old(r.linked), chain, k);
      forall l | l in r.lists ensures l.nodes == Only(old(l.nodes), r.linked) {
        OnlyTwice(old(l.nodes), was, r.linked);
      }
      node.freed := true;
      node := next;
      k := k + 1;
    }
    assert chain[..k] == chain;
  }

  class EventList {
    var first: EventNode?
    var last: EventNode?
    var memoryUsed: int
    const memoryMaxSize: int
    ghost var nodes: seq<EventNode>

    ghost predicate Valid()
      reads this, nodes
    {
      && memoryUsed == |nodes|
      && last == (if nodes == [] then null else nodes[|nodes| - 1])
      && Chain(first, nodes)
      && (forall i {:trigger nodes[i].prev} | 0 <= i < |nodes| :: nodes[i].prev == if i > 0 then nodes[i - 1] else null)
    }

    /** The list as the searches walk it. */
    ghost function Newest(): seq<Eventinfo>
      reads this
    {
      EventsOf(nodes)
    }

    constructor (maxSize: int)
      ensures Valid() && nodes == [] && memoryMaxSize == maxSize
    {
      first, last, memoryUsed := null, null, 0;
      memoryMaxSize := maxSize;
      nodes := [];
    }

    /** The node that a walk from the newest end meets after `i` others. */
    ghost predicate At(i: nat, node: EventNode?)
      reads this
    {
      i <= |nodes| && node == if i < |nodes| then nodes[i] else null
    }

    lemma WalkFromFirst()
      requires Valid()
      ensures At(0, first)
    {
    }

    lemma WalkOn(i: nat, node: EventNode)
      requires Valid() && At(i, node)
      ensures i < |nodes| && Newest()[i] == node.event && At(i + 1, node.next)
    {
    }

    lemma WalkEnd(i: nat)
      requires At(i, null)
      ensures i == |nodes|
    {
    }

    /** The part of OS_AddEvent_List under the list lock up to the capacity test. */
    method PushFront(lf: Eventinfo) returns (node: EventNode)
      requires Valid()
      modifies this`first, this`last, this`memoryUsed, this`nodes, nodes`prev, lf`listRetained
      ensures Valid() && fresh(node) && node.event == lf && lf.listRetained
      ensures nodes == [node] + old(nodes)
    {
      node := new EventNode(lf, first);
      if first != null {
        first.prev := node;
        first := node;
        lf.listRetained := true;
        memoryUsed := memoryUsed + 1;
      } else {
        first := node;
        lf.listRetained := true;
        last := first;
        memoryUsed := 1;
      }
      nodes := [node] + nodes;
    }

    /** The oldest node moves to the front of the victims. */
    method PopLast(victims: EventNode?, ghost chain: seq<EventNode>) returns (oldLast: EventNode)
      requires Valid() && nodes != [] && Chain(victims, chain)
      requires forall n | n in chain :: n !in nodes
      modifies this`first, this`last, this`memoryUsed, this`nodes, nodes`next, nodes`prev
      ensures Valid() && nodes == old(nodes)[..|old(nodes)| - 1]
      ensures oldLast == old(nodes)[|old(nodes)| - 1]
      ensures Chain(oldLast, [oldLast] + chain)
    {
      assert last == nodes[|nodes| - 1] && (|nodes| > 1 ==> last.prev == nodes[|nodes| - 2]);
      oldLast := last;
      last := last.prev;
      if last != null {
        last.next := null;
      } else {
        first := null;
      }
      oldLast.prev := null;
      oldLast.next := victims;
      memoryUsed := memoryUsed - 1;
      nodes := nodes[..|nodes| - 1];
      ChainKept(victims, chain);
      ChainPush(oldLast, victims, chain);
    }

    /** One round of the eviction loop, on a list that was `was` before the first round. */
    method EvictOldest(victims: EventNode?, ghost was: seq<EventNode>, ghost chain: seq<EventNode>)
      returns (longer: EventNode, ghost chain': seq<EventNode>)
      requires Valid() && nodes != [] && Chain(victims, chain)
      requires Parts(was, nodes, chain) && Distinct(was)
      modifies this`first, this`last, this`memoryUsed, this`nodes, was`next, was`prev
      ensures Valid() && Chain(longer, chain') && Parts(was, nodes, chain')
      ensures nodes == old(nodes)[..|old(nodes)| - 1]
    {
      hide Valid, Chain, Parts, Distinct;
      PartsMore(was, nodes, chain);
      longer := PopLast(victims, chain);
      chain' := [longer] + chain;
    }

    lemma LastIsLast()
      requires Valid()
      ensures memoryUsed == |nodes|
      ensures last == if nodes == [] then null else nodes[|nodes| - 1]
      ensures first == null <==> nodes == []
      ensures Distinct(nodes)
    {
    }

    /** The locked section of OS_AddEvent_List. The new event goes to the front; what the eviction rule
        of `Inserted` drops, exactly the oldest nodes, comes back as a chain still in newest-first order. */
    method AddLocked(lf: Eventinfo, maxFreq: int)
      returns (victims: EventNode?, ghost node: EventNode, ghost chain: seq<EventNode>)
      requires Valid()
      modifies this`first, this`last, this`memoryUsed, this`nodes, nodes`next, nodes`prev, lf`listRetained
      ensures Valid() && lf.listRetained && Chain(victims, chain)
      ensures fresh(node) && node.event == lf
      ensures Parts([node] + old(nodes), nodes, chain) && forall n | n in chain :: n !in nodes
      ensures |nodes| == |Inserted(old(Views(Newest())), lf.View(), memoryMaxSize, maxFreq)|
    {
      hide Valid, Chain, Survivors, Distinct, EventsOf, Views, Parts;
      LastIsLast();
      var wasEmpty := first == null;
      node := PushFront(lf);
      victims, chain := null, [];
      PushedView(old(nodes), node);
      LastIsLast();
      NoChain();
      PartsNone(nodes);
      if !wasEmpty && memoryUsed > memoryMaxSize {
        victims, chain := Evict(lf, maxFreq);
      }
    }

    /** The list owns its events: all are live, none occurs twice. */
    ghost predicate Owns(r: Registry)
      reads this, nodes, r
    {
      Valid() && Owned(r.live, nodes)
    }

    /** The locked section on a list that owns its events: it still owns what it keeps, and what it hands
        over can be freed. */
    method AddOwned(lf: Eventinfo, maxFreq: int, r: Registry) returns (victims: EventNode?, ghost chain: seq<EventNode>)
      requires r.Valid() && Owns(r) && lf in r.live && lf !in Newest()
      modifies this`first, this`last, this`memoryUsed, this`nodes, nodes`next, nodes`prev, lf`listRetained
      ensures r.Valid() && Valid() && lf.listRetained && Chain(victims, chain)
      ensures Owned(r.live, chain) && Owned(Less(r.live, EventsOf(chain)), nodes)
      ensures forall i | 0 <= i < |chain| ::
        fresh(chain[i]) || exists j :: 0 <= j < |old(nodes)| && old(nodes)[j] == chain[i]
      ensures forall n | n in nodes :: n !in chain
      ensures Views(Newest()) == Inserted(old(Views(Newest())), lf.View(), memoryMaxSize, maxFreq)
      ensures Newest() == FirstOf([lf] + old(Newest()), |nodes|)
      ensures EventsOf(chain) == RestOf([lf] + old(Newest()), |nodes|)
    {
      hide *;
      ghost var was := nodes;
      OwnsParts(r);
      ghost var node;
      victims, node, chain := AddLocked(lf, maxFreq);
      r.StaysValid();
      CutInTwo(r.live, was, node, nodes, chain, memoryMaxSize, maxFreq);
      NewestAre();
    }

    /** The unlocked section: what was handed over is freed. */
    method FreeVictims(victims: EventNode?, r: Registry, ghost chain: seq<EventNode>)
      requires r.Valid() && Valid() && Chain(victims, chain)
      requires Owned(r.live, chain) && Owned(Less(r.live, EventsOf(chain)), nodes)
      requires forall n | n in nodes :: n !in chain
      modifies r`linked, r`live, r.lists, r.linked, r.live`sidNode, r.live`groupNodes, r.live`freed, chain`freed
      ensures r.Valid() && Owns(r) && Distinct(Newest())
      ensures Lost(r, old(r.live), old(r.linked), EventsOf(chain))
      ensures forall l | l in r.lists :: l.nodes == Only(old(l.nodes), r.linked)
    {
      hide *;
      FreeChain(victims, r, chain);
      StaysValid();
      LostLive(r, old(r.live), old(r.linked), EventsOf(chain));
      StillOwns(r);
    }

    /** OS_AddEvent_List. The history becomes what `Inserted` says, and the events that fell off its old
        end, and no others, are freed. */
    method Add(lf: Eventinfo, maxFreq: int, r: Registry)
      requires r.Valid() && Owns(r) && lf in r.live && lf !in Newest()
      modifies this`first, this`last, this`memoryUsed, this`nodes, nodes`next, nodes`prev, nodes`freed
      modifies lf`listRetained, r`linked, r`live, r.lists, r.linked, r.live`sidNode, r.live`groupNodes, r.live`freed
      ensures r.Valid() && Owns(r) && lf.listRetained
      ensures Views(Newest()) == Inserted(old(Views(Newest())), lf.View(), memoryMaxSize, maxFreq)
      ensures Newest() == FirstOf([lf] + old(Newest()), |nodes|)
      ensures Distinct(Newest())
      ensures Lost(r, old(r.live), old(r.linked), RestOf([lf] + old(Newest()), |nodes|))
      ensures forall l | l in r.lists :: l.nodes == Only(old(l.nodes), r.linked)
    {
      hide *;
      var victims, chain := AddOwned(lf, maxFreq, r);
      ghost var now, h := Newest(), Views(Newest());
      FreeVictims(victims, r, chain);
      assert Newest() == now && Views(now) == h;
    }

    lemma NewestAre()
      ensures Newest() == EventsOf(nodes)
    {
    }

    lemma OwnsParts(r: Registry)
      requires Owns(r)
      ensures Valid() && Owned(r.live, nodes) && Newest() == EventsOf(nodes)
    {
    }

    lemma StillOwns(r: Registry)
      requires Valid() && Owned(r.live, nodes)
      ensures Owns(r) && Distinct(Newest()) && Newest() == EventsOf(nodes)
    {
    }

    /** Validity depends on the list and its nodes alone. */
    twostate lemma StaysValid()
      requires old(Valid()) && unchanged(this) && forall n | n in nodes :: unchanged(n)
      ensures Valid()
    {
      ChainKept(first, nodes);
      forall i | 0 <= i < |nodes| ensures unchanged(nodes[i]) {
        assert nodes[i] in nodes;
      }
    }

    /** OS_EventList_Destroy: the list empties and every event it held is freed. */
    method Destroy(r: Registry)
      requires r.Valid() && Owns(r)
      modifies this`first, this`last, this`memoryUsed, this`nodes, nodes`freed
      modifies r`linked, r`live, r.lists, r.linked, r.live`sidNode, r.live`groupNodes, r.live`freed
      ensures r.Valid() && Valid() && nodes == []
      ensures Lost(r, old(r.live), old(r.linked), old(Newest()))
      ensures forall n | n in old(nodes) :: n.freed
      ensures forall l | l in r.lists :: l.nodes == Only(old(l.nodes), r.linked)
    {
      hide Registry.Valid, EventsOf, NodesLess, Only;
      var node := first;
      ghost var chain := nodes;
      first, last, memoryUsed, nodes := null, null, 0, [];
      FreeChain(node, r, chain);
    }

    /** The eviction loop. */
    method Evict(lf: Eventinfo, maxFreq: int) returns (victims: EventNode?, ghost chain: seq<EventNode>)
      requires Valid()
      modifies this`first, this`last, this`memoryUsed, this`nodes, nodes`next, nodes`prev
      ensures Valid() && Chain(victims, chain)
      ensures |nodes| == Survivors(old(Views(Newest())), lf.time, maxFreq, 0)
      ensures Parts(old(nodes), nodes, chain) && forall n | n in chain :: n !in nodes
    {
      hide Valid, Chain, Survivors, Distinct, EventsOf, Views, Parts, Reached;
      NoChain();
      PartsNone(nodes);
      LastIsLast();
      victims, chain := null, [];
      ghost var was, h := nodes, Views(Newest());
      NoRound(was, lf.time, maxFreq);
      var i := 0;
      while last != null && (i < EVICT_BATCH || lf.time - last.event.time > maxFreq)
        invariant Valid() && Chain(victims, chain)
        invariant Distinct(was)
        invariant last == if nodes == [] then null else nodes[|nodes| - 1]
        invariant Parts(was, nodes, chain)
        invariant Reached(h, was, nodes, lf.time, maxFreq, i)
        decreases |nodes|
      {
        AnotherRound(h, was, nodes, chain, lf.time, maxFreq, i);
        victims, chain := EvictOldest(victims, was, chain);
        LastIsLast();
        i := i + 1;
      }
      PartsApart(was, nodes, chain);
      RoundsOver(h, was, nodes, chain, lf.time, maxFreq, i);
    }
  }

  /** `kept` and `rest` are `all` cut in two. */
  ghost predicate Parts(all: seq<EventNode>, kept: seq<EventNode>, rest: seq<EventNode>) {
    |kept| <= |all| && kept == all[..|kept|] && rest == all[|kept|..]
  }

  lemma PartsNone(all: seq<EventNode>)
    ensures Parts(all, all, [])
  {
  }

  lemma PartsApart(all: seq<EventNode>, kept: seq<EventNode>, rest: seq<EventNode>)
    requires Parts(all, kept, rest) && Distinct(all)
    ensures forall n | n in rest :: n !in kept
  {
    Apart(all, |kept|);
  }

  lemma PartsMore(all: seq<EventNode>, kept: seq<EventNode>, rest: seq<EventNode>)
    requires Parts(all, kept, rest) && kept != [] && Distinct(all)
    ensures forall n | n in rest :: n !in kept
    ensures forall n | n in kept :: n in all
    ensures |kept| <= |all| && kept[|kept| - 1] == all[|kept| - 1]
    ensures Parts(all, kept[..|kept| - 1], [kept[|kept| - 1]] + rest)
  {
    Apart(all, |kept|);
  }

  /** After the cut the kept events stay owned when the others are freed. */
  lemma OwnedParts(live: set<Eventinfo>, was: seq<EventNode>, node: EventNode, kept: seq<EventNode>,
                   rest: seq<EventNode>)
    requires Owned(live, was) && node.event in live && node.event !in EventsOf(was)
    requires Parts([node] + was, kept, rest)
    ensures Owned(live, rest) && Owned(Less(live, EventsOf(rest)), kept)
  {
    var all := [node] + was;
    assert forall i, j | 0 <= i < j < |all| :: all[i].event != all[j].event by {
      forall i, j | 0 <= i < j < |all| ensures all[i].event != all[j].event {
        assert all[j] == was[j - 1];
        if i > 0 {
          assert all[i] == was[i - 1];
        } else {
          assert EventsOf(was)[j - 1] == was[j - 1].event;
        }
      }
    }
    assert forall i | 0 <= i < |all| :: all[i].event in live;
  }

  lemma OwnedOnce(live: set<Eventinfo>, ns: seq<EventNode>)
    requires Owned(live, ns)
    ensures Distinct(EventsOf(ns))
  {
  }

  lemma LostLive(r: Registry, live: set<Eventinfo>, linked: set<OSListNode>, gone: seq<Eventinfo>)
    requires Lost(r, live, linked, gone)
    ensures r.live == Less(live, gone)
  {
  }

  /** What the insertion leaves in the list and what it hands over to be freed. */
  lemma CutInTwo(live: set<Eventinfo>, was: seq<EventNode>, node: EventNode, kept: seq<EventNode>,
                 rest: seq<EventNode>, max: int, maxFreq: int)
    requires Owned(live, was) && node.event in live && node.event !in EventsOf(was)
    requires Parts([node] + was, kept, rest)
    requires |kept| == |Inserted(Views(EventsOf(was)), node.event.View(), max, maxFreq)|
    ensures Owned(live, rest) && Owned(Less(live, EventsOf(rest)), kept)
    ensures forall i | 0 <= i < |rest| :: rest[i] == node || exists j :: 0 <= j < |was| && was[j] == rest[i]
    ensures Views(EventsOf(kept)) == Inserted(Views(EventsOf(was)), node.event.View(), max, maxFreq)
    ensures EventsOf(kept) == FirstOf([node.event] + EventsOf(was), |kept|)
    ensures EventsOf(rest) == RestOf([node.event] + EventsOf(was), |kept|)
  {
    OwnedParts(live, was, node, kept, rest);
    PartsAreOld(was, node, kept, rest);
    PartsView(was, node, kept, rest, max, maxFreq);
    hide *;
  }

  lemma PartsAreOld(was: seq<EventNode>, node: EventNode, kept: seq<EventNode>, rest: seq<EventNode>)
    requires Parts([node] + was, kept, rest)
    ensures forall i | 0 <= i < |rest| :: rest[i] == node || exists j :: 0 <= j < |was| && was[j] == rest[i]
  {
    forall i | 0 <= i < |rest| && rest[i] != node
      ensures exists j :: 0 <= j < |was| && was[j] == rest[i]
    {
      assert ([node] + was)[|kept| + i] == rest[i];
      assert was[|kept| + i - 1] == rest[i];
    }
  }

  lemma EventsOfCut(ns: seq<EventNode>, k: nat)
    requires k <= |ns|
    ensures EventsOf(ns[..k]) == EventsOf(ns)[..k] && EventsOf(ns[k..]) == EventsOf(ns)[k..]
  {
  }

  lemma EventsOfPushed(node: EventNode, ns: seq<EventNode>)
    ensures EventsOf([node] + ns) == [node.event] + EventsOf(ns)
  {
  }

  /** The kept nodes are what `Inserted` keeps of the history, the others what it drops. */
  lemma PartsView(was: seq<EventNode>, node: EventNode, kept: seq<EventNode>, rest: seq<EventNode>, max: int,
                  maxFreq: int)
    requires Parts([node] + was, kept, rest)
    requires |kept| == |Inserted(Views(EventsOf(was)), node.event.View(), max, maxFreq)|
    ensures Views(EventsOf(kept)) == Inserted(Views(EventsOf(was)), node.event.View(), max, maxFreq)
    ensures EventsOf(kept) == FirstOf([node.event] + EventsOf(was), |kept|)
    ensures EventsOf(rest) == RestOf([node.event] + EventsOf(was), |kept|)
  {
    EventsOfCut([node] + was, |kept|);
    EventsOfPushed(node, was);
    hide Inserted, EventsOf, Views;
    var es := [node.event] + EventsOf(was);
    assert EventsOf(kept) == es[..|kept|];
    ViewsOfFirst(es, |kept|);
    PushedView(was, node);
    InsertedIsPrefix(Views(EventsOf(was)), node.event.View(), max, maxFreq);
  }

  lemma ViewsOfFirst(es: seq<Eventinfo>, k: nat)
    requires k <= |es|
    ensures Views(es[..k]) == Views(es)[..k]
  {
  }

  lemma InsertedIsPrefix(h: seq<Ev>, e: Ev, max: int, maxFreq: int)
    ensures var r := Inserted(h, e, max, maxFreq); |r| <= |h| + 1 && r == ([e] + h)[..|r|]
  {
    hide Inserted;
  }

  lemma PushedView(ns: seq<EventNode>, node: EventNode)
    ensures Views(EventsOf([node] + ns)) == [node.event.View()] + Views(EventsOf(ns))
  {
  }

  /** After `i` rounds the eviction of `all`, which the searches see as `h`, has come down to `kept`. */
  ghost predicate Reached(h: seq<Ev>, all: seq<EventNode>, kept: seq<EventNode>, now: int, maxFreq: int, i: nat) {
    && |h| == |all| && (forall k {:trigger h[k]} | 0 <= k < |all| :: h[k].time == all[k].event.time)
    && |kept| <= |h|
    && Survivors(h, now, maxFreq, 0) == Survivors(h[..|kept|], now, maxFreq, i)
  }

  lemma NoRound(all: seq<EventNode>, now: int, maxFreq: int)
    ensures Reached(Views(EventsOf(all)), all, all, now, maxFreq, 0)
  {
    var h := Views(EventsOf(all));
    assert h[..|all|] == h;
  }

  lemma AnotherRound(h: seq<Ev>, all: seq<EventNode>, kept: seq<EventNode>, rest: seq<EventNode>, now: int,
                     maxFreq: int, i: nat)
    requires Parts(all, kept, rest) && kept != [] && Reached(h, all, kept, now, maxFreq, i)
    requires i < EVICT_BATCH || now - kept[|kept| - 1].event.time > maxFreq
    ensures Reached(h, all, kept[..|kept| - 1], now, maxFreq, i + 1)
  {
    assert h[..|kept|][..|kept| - 1] == h[..|kept| - 1];
  }

  lemma RoundsOver(h: seq<Ev>, all: seq<EventNode>, kept: seq<EventNode>, rest: seq<EventNode>, now: int, maxFreq: int,
                   i: nat)
    requires Parts(all, kept, rest) && Reached(h, all, kept, now, maxFreq, i)
    requires kept != [] ==> i >= EVICT_BATCH && now - kept[|kept| - 1].event.time <= maxFreq
    ensures |kept| == Survivors(h, now, maxFreq, 0)
  {
  }
}
