/**
 The objects of the correlation core: events, rules with their alert-context buffer, and the shared
 lists that hold previously matched events.
 */
module Events {
  import opened Wrappers
  import opened History

  /** A line of alert context is NULL-terminated somewhere in its slots. */
  predicate Terminated(slots: seq<Option<string>>) {
    exists i | 0 <= i < |slots| :: slots[i].None?
  }

  /** Twelve slots that list exactly these lines before the first NULL. */
  predicate Lists(slots: seq<Option<string>>, logs: seq<string>) {
    && |logs| <= MAX_LAST_EVENTS < |slots| == MAX_LAST_EVENTS + 1
    && (forall t | 0 <= t < |logs| :: slots[t] == Some(logs[t]))
    && slots[|logs|] == None
  }

  class Eventinfo {
    const time: int
    const attrs: Attrs
    const fullLog: string
    var matched: int
    var generatedRule: RuleInfo?
    var alertLastEvents: Option<seq<Option<string>>>
    var sidNode: OSListNode?
    var groupNodes: Option<seq<OSListNode?>>
    var listRetained: bool
    ghost var freed: bool

    ghost function View(): Ev
      reads this`matched
    {
      Ev(time, matched, attrs, fullLog)
    }
  }

  /** What the searches see of a newest-first sequence of events. */
  ghost function Views(es: seq<Eventinfo>): (h: seq<Ev>)
    reads es`matched
    ensures |h| == |es|
    ensures forall i | 0 <= i < |es| :: h[i] == es[i].View()
    decreases |es|
  {
    if es == [] then [] else [es[0].View()] + Views(es[1..])
  }

  class RuleInfo {
    const sigid: int
    const watch: Watch
    const sidPrevMatched: OSList?
    const groupPrevMatched: seq<OSList>
    const sidSearch: OSList?
    const groupSearch: OSList?
    const lastEvents: array?<Option<string>>
    var lastEventsCopied: bool
    var freqCount: nat

    /** The buffer has its twelve slots, and what it owns is NULL-terminated. */
    ghost predicate BufferOk()
      reads this, lastEvents
    {
      lastEvents != null ==>
        && lastEvents.Length == MAX_LAST_EVENTS + 1
        && (lastEventsCopied ==> Terminated(lastEvents[..]))
    }

    /** The buffer holds exactly these lines, NULL-terminated; without lines it owns nothing. */
    ghost predicate Holds(logs: seq<string>)
      reads this, lastEvents
    {
      lastEvents != null ==> if logs == [] then !lastEventsCopied else lastEventsCopied && Lists(lastEvents[..], logs)
    }

    /** OS_FreeRuleLastEvents */
    method FreeLastEvents()
      requires BufferOk()
      modifies this`lastEventsCopied, lastEvents
      ensures BufferOk()
      ensures lastEvents != null ==> !lastEventsCopied
      ensures lastEvents != null && old(lastEventsCopied) ==>
        forall t | 0 <= t <= MAX_LAST_EVENTS :: lastEvents[t] == None
      ensures lastEvents == null || !old(lastEventsCopied) ==>
        unchanged(this) && (lastEvents != null ==> lastEvents[..] == old(lastEvents[..]))
    {
      if lastEvents == null || !lastEventsCopied {
        return;
      }
      for ii := 0 to MAX_LAST_EVENTS + 1
        invariant forall t | 0 <= t < ii :: lastEvents[t] == None
      {
        if lastEvents[ii].Some? {
          lastEvents[ii] := None;
        }
      }
      lastEventsCopied := false;
    }

    /** OS_SetRuleLastEvent */
    method SetLastEvent(idx: int, log: string)
      requires BufferOk()
      modifies this`lastEventsCopied, lastEvents
      ensures lastEvents == null || !(0 <= idx <= MAX_LAST_EVENTS) ==> unchanged(this)
      ensures lastEvents != null && !(0 <= idx <= MAX_LAST_EVENTS) ==> lastEvents[..] == old(lastEvents[..])
      ensures lastEvents != null && 0 <= idx <= MAX_LAST_EVENTS ==>
        && lastEventsCopied
        && lastEvents[idx] == Some(log)
        && (idx < MAX_LAST_EVENTS ==> lastEvents[idx + 1] == None)
        && forall t | 0 <= t <= MAX_LAST_EVENTS && t != idx && t != idx + 1 :: lastEvents[t] == old(lastEvents[t])
      ensures idx < MAX_LAST_EVENTS ==> BufferOk()
    {
      if lastEvents == null || idx < 0 || idx > MAX_LAST_EVENTS {
        return;
      }
      if lastEventsCopied && lastEvents[idx].Some? {
        lastEvents[idx] := None;
      }
      lastEvents[idx] := Some(log);
      lastEventsCopied := true;
      if idx < MAX_LAST_EVENTS {
        lastEvents[idx + 1] := None;
        assert lastEvents[..][idx + 1].None?;
      }
    }

    /** Saving one more line after `logs`. */
    method SaveLine(ghost logs: seq<string>, log: string, idx: int)
      requires BufferOk() && Holds(logs) && idx == |logs| < MAX_LAST_EVENTS
      modifies this`lastEventsCopied, lastEvents
      ensures BufferOk() && Holds(logs + [log])
    {
      SetLastEvent(idx, log);
      if lastEvents != null {
        assert forall t | 0 <= t <= MAX_LAST_EVENTS :: lastEvents[..][t] == lastEvents[t];
      }
    }

    /** OS_MoveRuleLastEvents: the lines change owner, so they are printed with one alert and freed once. */
    method MoveLastEvents(lf: Eventinfo)
      requires BufferOk()
      requires lf.alertLastEvents.Some? ==> Terminated(lf.alertLastEvents.value)
      modifies this`lastEventsCopied, lastEvents, lf`alertLastEvents
      ensures BufferOk()
      ensures lf.alertLastEvents.Some? ==> Terminated(lf.alertLastEvents.value)
      ensures lastEvents == null || !old(lastEventsCopied) ==>
        unchanged(this) && lf.alertLastEvents == old(lf.alertLastEvents)
      ensures lastEvents != null && old(lastEventsCopied) ==>
        && lf.alertLastEvents == Some(old(lastEvents[..]))
        && !lastEventsCopied
        && forall t | 0 <= t <= MAX_LAST_EVENTS :: lastEvents[t] == None
    {
      if lastEvents == null || !lastEventsCopied {
        return;
      }
      if lf.alertLastEvents.Some? {
        var previous := lf.alertLastEvents.value;
        var i := 0;
        while previous[i].Some?
          invariant 0 <= i < |previous|
          invariant forall t | 0 <= t < i :: previous[t].Some?
          decreases |previous| - i
        {
          i := i + 1;
        }
        lf.alertLastEvents := None;
      }
      var moved: seq<Option<string>> := [];
      for i := 0 to MAX_LAST_EVENTS + 1
        invariant |moved| == i
        invariant forall t | 0 <= t < i :: moved[t] == old(lastEvents[t]) && lastEvents[t] == None
        invariant forall t | i <= t <= MAX_LAST_EVENTS :: lastEvents[t] == old(lastEvents[t])
      {
        moved := moved + [lastEvents[i]];
        lastEvents[i] := None;
      }
      assert moved == old(lastEvents[..]);
      lf.alertLastEvents := Some(moved);
      lastEventsCopied := false;
    }
  }

  class OSListNode {
    var next: OSListNode?
    var prev: OSListNode?
    const data: Eventinfo
    ghost var owner: OSList?
    ghost var slot: nat
    ghost var freed: bool

    constructor (data: Eventinfo, prev: OSListNode?, ghost owner: OSList, ghost slot: nat)
      ensures this.data == data && this.prev == prev && this.next == null
      ensures this.owner == owner && this.slot == slot && !freed
    {
      this.data, this.prev, this.next := data, prev, null;
      this.owner, this.slot, this.freed := owner, slot, false;
    }
  }

  /** A doubly linked list, oldest node first. `clearsSid` says that Mark_EventNodeDelete is its free callback. */
  class OSList {
    var first: OSListNode?
    var last: OSListNode?
    var size: int
    const maxSize: nat
    const clearsSid: bool
    ghost var nodes: seq<OSListNode>

    ghost predicate Valid()
      reads this, nodes
    {
      Linked() && (maxSize > 0 ==> size <= maxSize)
    }

    /** Validity depends on the list and its nodes alone. */
    twostate lemma StaysValid()
      requires old(Valid()) && unchanged(this) && forall n | n in old(nodes) :: unchanged(n)
      ensures Valid()
    {
      forall i | 0 <= i < |nodes| ensures unchanged(nodes[i]) {
        assert nodes[i] in old(nodes);
      }
    }

    /** The events of the list as a search walks them. */
    ghost function NewestFirst(): (es: seq<Eventinfo>)
      reads this
      ensures |es| == |nodes|
    {
      Backward(nodes)
    }

    /** The node that a walk from the newest end meets after `i` others. */
    ghost predicate At(i: nat, node: OSListNode?)
      reads this
    {
      i <= |nodes| && node == if i < |nodes| then nodes[|nodes| - 1 - i] else null
    }

    lemma WalkFromLast()
      requires Valid()
      ensures At(0, last)
    {
    }

    lemma WalkEnd(i: nat)
      requires At(i, null)
      ensures i == |nodes|
    {
    }

    lemma WalkBack(i: nat, node: OSListNode)
      requires Valid() && At(i, node)
      ensures i < |nodes| && NewestFirst()[i] == node.data && At(i + 1, node.prev)
    {
    }

    /** OSList_Create followed by OSList_SetMaxSize; `max` 0 leaves the list unbounded. */
    constructor (max: nat, clearsSid: bool)
      requires max != 1
      ensures Valid() && nodes == [] && maxSize == max && this.clearsSid == clearsSid
    {
      first, last, size := null, null, 0;
      maxSize, this.clearsSid := max, clearsSid;
      nodes := [];
    }

    /** The only event the free callback may touch: that of the oldest node. */
    ghost function CallbackTarget(): set<Eventinfo>
      reads this
    {
      if clearsSid && nodes != [] then {nodes[0].data} else {}
    }

    /** OSList_AddData: append at the tail; a full list drops its oldest node through the callback. */
    method AddData(data: Eventinfo, ghost slot: nat) returns (node: OSListNode, ghost dropped: OSListNode?)
      requires Valid()
      modifies this, nodes, CallbackTarget()`sidNode
      ensures Valid()
      ensures fresh(node) && node.data == data && node.slot == slot && node.owner == this && !node.freed
      ensures dropped == if maxSize > 0 && |old(nodes)| == maxSize then old(nodes)[0] else null
      ensures nodes == (if dropped == null then old(nodes) else old(nodes)[1..]) + [node]
      ensures last == node
      ensures forall n | n in old(nodes) && n != dropped ::
        n.owner == this && n.slot == old(n.slot) && n.freed == old(n.freed)
      ensures dropped != null ==> dropped.freed && dropped.owner == null
      ensures dropped != null && clearsSid ==> dropped.data.sidNode == null
      ensures dropped == null ==> forall e | e in old(CallbackTarget()) :: unchanged(e)
    {
      node := new OSListNode(data, last, this, slot);
      LinkLast(node);
      dropped := null;
      if maxSize > 0 {
        if size > maxSize && first.next != null {
          dropped := DropFirst();
        }
      }
    }

    /** The pointers run through exactly these nodes, both ways. */
    ghost predicate Links(ns: seq<OSListNode>)
      reads this, ns
    {
      && first == (if |ns| == 0 then null else ns[0])
      && last == (if |ns| == 0 then null else ns[|ns| - 1])
      && (forall i {:trigger ns[i].next} | 0 <= i < |ns| :: ns[i].next == if i + 1 < |ns| then ns[i + 1] else null)
      && (forall i {:trigger ns[i].prev} | 0 <= i < |ns| :: ns[i].prev == if i > 0 then ns[i - 1] else null)
    }

    /** Linked, except that the bound may be exceeded by one. */
    ghost predicate Linked()
      reads this, nodes
    {
      && size == |nodes|
      && maxSize != 1
      && Links(nodes)
      && (forall i | 0 <= i < |nodes| :: nodes[i].owner == this && !nodes[i].freed)
      && (forall i, j | 0 <= i < j < |nodes| :: nodes[i] != nodes[j])
    }

    method LinkLast(node: OSListNode)
      requires Linked() && node !in nodes
      requires node.prev == last && node.next == null && node.owner == this && !node.freed
      modifies this`first, this`last, this`size, this`nodes, nodes`next
      ensures Linked() && nodes == old(nodes) + [node]
    {
      if first == null {
        first := node;
      }
      if last != null {
        last.next := node;
      }
      last := node;
      size := size + 1;
      nodes := nodes + [node];
    }

    method DropFirst() returns (ghost dropped: OSListNode)
      requires Linked() && |nodes| >= 2
      modifies this`first, this`size, this`nodes, first.next`prev, first`freed, first`owner,
        (if clearsSid then {first.data} else {})`sidNode
      ensures Linked() && nodes == old(nodes)[1..] && last == old(last)
      ensures dropped == old(nodes)[0] && dropped.freed && dropped.owner == null
      ensures clearsSid ==> dropped.data.sidNode == null
    {
      var second := first.next;
      second.prev := null;
      if clearsSid {
        first.data.sidNode := null;
      }
      dropped := first;
      dropped.freed, dropped.owner := true, null;
      first := second;
      size := size - 1;
      nodes := nodes[1..];
    }

    /** OSList_DeleteThisNode */
    method DeleteThisNode(node: OSListNode?) returns (ghost k: nat)
      requires Valid()
      requires node != null ==> node in nodes
      modifies this`first, this`last, this`size, this`nodes, nodes`next, nodes`prev, nodes`owner, nodes`freed
      ensures Valid()
      ensures node == null ==> nodes == old(nodes)
      ensures node != null ==>
        && k < |old(nodes)| && old(nodes)[k] == node
        && nodes == Without(old(nodes), k)
        && node.freed && node.owner == null
      ensures node != null ==> forall n :: n in nodes <==> n in old(nodes) && n != node
      ensures forall n | n in old(nodes) && n != node :: n.owner == this && n.freed == old(n.freed)
    {
      k := 0;
      if node == null {
        return;
      }
      k :| 0 <= k < |nodes| && nodes[k] == node;
      Splice(node, k);
      FreeNode(node, k);
    }

    /** The node is given back, after the list goes around it. */
    method FreeNode(node: OSListNode, ghost k: nat)
      requires k < |nodes| && nodes[k] == node && size == |nodes| && maxSize != 1 && Links(Without(nodes, k))
      requires Distinct(nodes) && forall n | n in nodes :: n.owner == this && !n.freed
      modifies this`size, this`nodes, node`owner, node`freed
      ensures Linked() && nodes == Without(old(nodes), k) && node.freed && node.owner == null
      ensures forall n :: n in nodes <==> n in old(nodes) && n != node
    {
      hide Without;
      WithoutMembers(nodes, k);
      DistinctWithout(nodes, k);
      node.freed, node.owner := true, null;
      size := size - 1;
      nodes := Without(nodes, k);
      assert forall i | 0 <= i < |nodes| :: nodes[i] in nodes;
    }

    method Splice(node: OSListNode, ghost k: nat)
      requires Linked() && k < |nodes| && nodes[k] == node
      modifies this`first, this`last, nodes`next, nodes`prev
      ensures Links(Without(nodes, k))
    {
      ghost var rest := Without(nodes, k);
      var prev, next := node.prev, node.next;
      if prev != null && next != null {
        prev.next := next;
        next.prev := prev;
      } else if prev != null {
        prev.next := null;
        last := prev;
      } else if next != null {
        next.prev := null;
        first := next;
      } else {
        last := null;
        first := null;
      }
    }
  }

  /** The events of these nodes, from the last node to the first. */
  ghost function Backward(ns: seq<OSListNode>): (es: seq<Eventinfo>)
    ensures |es| == |ns|
    ensures forall i | 0 <= i < |es| :: es[i] == ns[|ns| - 1 - i].data
  {
    seq(|ns|, i requires 0 <= i < |ns| => ns[|ns| - 1 - i].data)
  }

  /** A sequence without its element at `k`. */
  function Without<T>(s: seq<T>, k: nat): (r: seq<T>)
    requires k < |s|
    ensures |r| == |s| - 1
    ensures forall i {:trigger r[i]} | 0 <= i < |r| :: r[i] == if i < k then s[i] else s[i + 1]
  {
    s[..k] + s[k + 1..]
  }

  predicate Distinct<T(==)>(s: seq<T>) {
    forall i, j | 0 <= i < j < |s| :: s[i] != s[j]
  }

  lemma Apart<T>(s: seq<T>, k: nat)
    requires Distinct(s) && k <= |s|
    ensures forall x | x in s[k..] :: x !in s[..k]
  {
    forall i, j | 0 <= i < k && 0 <= j < |s| - k ensures s[..k][i] != s[k..][j] {
      assert s[i] != s[k + j];
    }
  }

  lemma DistinctWithout<T>(s: seq<T>, k: nat)
    requires k < |s| && Distinct(s)
    ensures Distinct(Without(s, k))
  {
  }

  lemma WithoutMembers<T>(s: seq<T>, k: nat)
    requires k < |s| && forall i, j | 0 <= i < j < |s| :: s[i] != s[j]
    ensures forall x :: x in Without(s, k) <==> x in s && x != s[k]
  {
    forall x | x in s && x != s[k]
      ensures x in Without(s, k)
    {
      var i :| 0 <= i < |s| && s[i] == x;
      assert Without(s, k)[if i < k then i else i - 1] == x;
    }
  }
}
