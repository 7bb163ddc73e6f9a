/**
 The lists of previously matched events that rules share, and the back-pointers that tie every list
 node to the live event it was made for.
 */
module SharedLists {
  import opened Wrappers
  import opened History
  import opened Events

  /** All sid and group lists of the loaded rules, the live events, and the list nodes in use. */
  class Registry {
    ghost var lists: set<OSList>
    ghost var live: set<Eventinfo>
    ghost var linked: set<OSListNode>

    ghost predicate Valid()
      reads this, lists, live, linked
    {
      && ListsOk()
      && (forall n | n in linked :: NodeOk(n))
      && (forall e | e in live :: EventOk(e))
    }

    ghost predicate ListsOk()
      reads this, lists, linked
    {
      && (forall l, n | l in lists && n in l.nodes :: n in linked)
      && (forall l | l in lists :: l.Valid())
    }

    /** A node in use hangs in a list and points to a live event that points back to exactly this node. */
    ghost predicate NodeOk(n: OSListNode)
      reads this, n, lists, live
    {
      && n.owner != null && n.owner in lists && n in n.owner.nodes
      && n.data in live
      && PointsBack(n.data, n)
    }

    ghost predicate PointsBack(e: Eventinfo, n: OSListNode)
      reads e, n
    {
      if n.owner != null && n.owner.clearsSid then e.sidNode == n
      else e.groupNodes.Some? && n.slot < |e.groupNodes.value| && e.groupNodes.value[n.slot] == n
    }

    /** Every back-pointer of a live event leads to a node in use, in the list of the rule that generated it. */
    ghost predicate EventOk(e: Eventinfo)
      reads this, e, linked
    {
      && !e.freed
      && (e.sidNode != null ==> e.sidNode in linked && SidNodeOk(e, e.sidNode))
      && (e.groupNodes.Some? ==>
            && e.generatedRule != null
            && |e.groupNodes.value| == |e.generatedRule.groupPrevMatched|
            && forall j | 0 <= j < |e.groupNodes.value| && e.groupNodes.value[j] != null ::
                 e.groupNodes.value[j] in linked && GroupNodeOk(e, j, e.groupNodes.value[j]))
    }

    ghost predicate SidNodeOk(e: Eventinfo, n: OSListNode)
      reads e, n
    {
      && n.data == e
      && e.generatedRule != null && n.owner != null && n.owner == e.generatedRule.sidPrevMatched
      && n.owner.clearsSid
    }

    ghost predicate GroupNodeOk(e: Eventinfo, j: nat, n: OSListNode)
      reads e, n
    {
      && n.data == e && n.slot == j
      && e.generatedRule != null && j < |e.generatedRule.groupPrevMatched|
      && n.owner == e.generatedRule.groupPrevMatched[j]
      && !n.owner.clearsSid
    }

    /** The rule was loaded: its lists are known, only its sid list has the clearing callback, and only
        sid lists are bounded. */
    ghost predicate Loaded(rule: RuleInfo)
      reads this
    {
      && (rule.sidPrevMatched != null ==> rule.sidPrevMatched in lists && rule.sidPrevMatched.clearsSid)
      && forall j | 0 <= j < |rule.groupPrevMatched| ::
           var g := rule.groupPrevMatched[j]; g in lists && !g.clearsSid && g.maxSize == 0
    }

    /** Validity depends on the lists, their nodes and the back-pointers alone. */
    twostate lemma StaysValid()
      requires old(Valid()) && unchanged(this)
      requires (forall l | l in lists :: unchanged(l)) && (forall n | n in linked :: unchanged(n))
      requires forall e | e in live ::
        unchanged(e`sidNode) && unchanged(e`groupNodes) && unchanged(e`generatedRule) && unchanged(e`freed)
      ensures Valid()
    {
      hide OSList.Valid, OSList.Linked;
      forall l | l in lists ensures l.Valid() && forall n | n in l.nodes :: n in linked {
        ListUntouched(l);
      }
      forall n | n in linked ensures NodeOk(n) {
        NodeUntouched(n);
      }
      forall e | e in live ensures EventOk(e) {
        EventUntouched(e);
      }
    }

    twostate lemma ListUntouched(new l: OSList)
      requires old(allocated(l) && ListsOk()) && unchanged(this) && l in lists && unchanged(l)
      requires forall n | n in linked :: unchanged(n)
      ensures l.Valid() && forall n | n in l.nodes :: n in linked
    {
      assert forall n | n in old(l.nodes) :: n in linked;
      assert old(l.Valid());
      l.StaysValid();
    }

    twostate lemma NodeUntouched(new n: OSListNode)
      requires old(allocated(n)) && n in linked && old(NodeOk(n)) && unchanged(this) && unchanged(n)
      requires forall l | l in lists :: unchanged(l)
      requires forall e | e in live :: unchanged(e`sidNode) && unchanged(e`groupNodes)
      ensures NodeOk(n)
    {
      assert n.owner in lists && n.data in live;
    }

    twostate lemma EventUntouched(new e: Eventinfo)
      requires old(allocated(e) && EventOk(e)) && unchanged(this)
      requires unchanged(e`sidNode) && unchanged(e`groupNodes) && unchanged(e`generatedRule) && unchanged(e`freed)
      requires forall n | n in linked :: unchanged(n)
      ensures EventOk(e)
    {
    }

    /** No node in use outlives its event, and no two nodes in use share a back-pointer. */
    lemma NodesAreOwnedOnce(m: OSListNode, n: OSListNode)
      requires Valid() && m in linked && n in linked
      ensures !m.data.freed && m.data in live
      ensures m.data == n.data && m.owner.clearsSid && n.owner.clearsSid ==> m == n
      ensures m.data == n.data && !m.owner.clearsSid && !n.owner.clearsSid && m.slot == n.slot ==> m == n
    {
      assert NodeOk(m) && NodeOk(n);
    }

    /** A new event, not on any list yet. */
    ghost method Track(e: Eventinfo)
      requires Valid() && !e.freed && e.sidNode == null && e.groupNodes == None
      modifies this`live
      ensures Valid() && live == old(live) + {e}
    {
      live := live + {e};
    }

    /** One list took one new node for `lf` and may have dropped its oldest; nothing else changed but `lf`. */
    twostate predicate Added(l: OSList, new node: OSListNode, new dropped: OSListNode?, lf: Eventinfo)
      reads *
    {
      && lists == old(lists) && live == old(live)
      && linked == old(linked) + {node} - (if dropped == null then {} else {dropped})
      && !old(allocated(node)) && node.owner == l && node.data == lf && !node.freed
      && l.Valid()
      && dropped == (if l.maxSize > 0 && |old(l.nodes)| == l.maxSize then old(l.nodes)[0] else null)
      && l.nodes == (if dropped == null then old(l.nodes) else old(l.nodes)[1..]) + [node]
      && (forall n | n in old(l.nodes) && n != dropped :: n.owner == l && n.slot == old(n.slot))
      && (forall e | e in live && e != lf ::
            e.sidNode == if dropped != null && l.clearsSid && e == dropped.data then null else old(e.sidNode))
      && (forall m | m in lists && m != l :: unchanged(m))
      && (forall n | n in old(linked) && n !in old(l.nodes) :: unchanged(n))
      && (forall e | e in live :: unchanged(e`generatedRule) && unchanged(e`freed))
      && (forall e | e in live && e != lf :: unchanged(e`groupNodes))
    }

    /** `lf` points back to its new node and to what it pointed to before. */
    twostate predicate Claims(l: OSList, new node: OSListNode, lf: Eventinfo)
      reads *
    {
      if l.clearsSid then
        && old(lf.sidNode) == null && lf.sidNode == node && unchanged(lf`groupNodes)
      else
        && l.maxSize == 0 && unchanged(lf`sidNode)
        && old(lf.groupNodes).Some? && lf.groupNodes.Some?
        && var was := old(lf.groupNodes).value;
           node.slot < |was| && was[node.slot] == null && lf.groupNodes.value == was[node.slot := node]
    }

    twostate lemma OthersStayValid(new l: OSList, new node: OSListNode, new dropped: OSListNode?, new lf: Eventinfo,
                                   m: OSList)
      requires old(allocated(l) && allocated(lf) && Valid()) && l in lists && lf in live && Added(l, node, dropped, lf)
      requires m in lists && m != l
      ensures m.Valid() && m.nodes == old(m.nodes)
      ensures forall n | n in m.nodes :: n !in old(l.nodes) && n in linked
    {
      forall n | n in m.nodes ensures n !in old(l.nodes) && n in old(linked) {
        assert old(n.owner) == m;
      }
      m.StaysValid();
    }

    twostate lemma OwnNodesLinked(new l: OSList, new node: OSListNode, new dropped: OSListNode?, new lf: Eventinfo)
      requires old(allocated(l) && allocated(lf) && Valid()) && l in lists && lf in live && Added(l, node, dropped, lf)
      ensures forall n | n in l.nodes :: n in linked
    {
      if dropped != null {
        forall n | n in l.nodes ensures n != dropped {
          assert old(l.Valid());
        }
      }
    }

    twostate lemma NodeStaysOk(new l: OSList, new node: OSListNode, new dropped: OSListNode?, new lf: Eventinfo,
                               n: OSListNode)
      requires old(allocated(l) && allocated(lf) && Valid()) && l in lists && lf in live && Added(l, node, dropped, lf)
      requires Claims(l, node, lf)
      requires n in old(linked) && n != dropped
      ensures NodeOk(n)
    {
      assert forall m | m in old(l.nodes) :: old(m.owner) == l;
      hide OSList.Linked;
      hide OSList.Valid;
      assert old(NodeOk(n));
      if dropped != null {
        assert dropped in old(l.nodes);
        assert old(NodeOk(dropped));
      }
      if n in old(l.nodes) {
        assert n in l.nodes;
      }
    }

    twostate lemma EventStaysOk(new l: OSList, new node: OSListNode, new dropped: OSListNode?, new lf: Eventinfo,
                                e: Eventinfo)
      requires old(allocated(l) && allocated(lf) && Valid()) && l in lists && lf in live && Added(l, node, dropped, lf)
      requires Claims(l, node, lf)
      requires e in live && e != lf
      ensures EventOk(e)
    {
      assert forall m | m in old(l.nodes) :: old(m.owner) == l;
      hide OSList.Linked;
      hide OSList.Valid;
      assert old(EventOk(e));
      if dropped != null {
        assert dropped in old(l.nodes);
        assert old(NodeOk(dropped));
      }
    }

    /** The sid half of the registration of a matched event. */
    method AddSid(lf: Eventinfo, l: OSList)
      requires Valid() && l in lists && lf in live && lf.generatedRule != null
      requires l.clearsSid && l == lf.generatedRule.sidPrevMatched && lf.sidNode == null
      modifies this`linked, l, l.nodes, l.CallbackTarget()`sidNode, lf`sidNode
      ensures Valid()
      ensures lf.sidNode != null && lf.sidNode == l.last && fresh(lf.sidNode)
      ensures l.nodes == TailAppended(old(l.nodes), l.maxSize, lf.sidNode)
      ensures fresh(linked - old(linked))
    {
      hide OSList.Linked, OSList.Valid, NodeOk, EventOk, Valid, ListsOk;
      ListFrame(l);
      ListIsValid(l);
      var node, dropped := l.AddData(lf, 0);
      linked := linked + {node} - (if dropped == null then {} else {dropped});
      lf.sidNode := l.last;
      AddedKeepsValid(l, node, dropped, lf);
    }

    /** One step of the group half: the event enters the list at position `j` of its rule. */
    method AddGroup(lf: Eventinfo, l: OSList, j: nat)
      requires Valid() && l in lists && lf in live && lf.generatedRule != null
      requires !l.clearsSid && l.maxSize == 0 && lf.groupNodes.Some?
      requires j < |lf.generatedRule.groupPrevMatched| && l == lf.generatedRule.groupPrevMatched[j]
      requires j < |lf.groupNodes.value| && lf.groupNodes.value[j] == null
      modifies this`linked, l, l.nodes, lf`groupNodes
      ensures Valid()
      ensures l.last != null && fresh(l.last) && l.last.data == lf
      ensures lf.groupNodes == Some(old(lf.groupNodes.value)[j := l.last])
      ensures l.nodes == old(l.nodes) + [l.last] && linked == old(linked) + {l.last}
    {
      hide OSList.Linked, OSList.Valid, NodeOk, EventOk, Valid, ListsOk;
      ListFrame(l);
      ListIsValid(l);
      var node, dropped := l.AddData(lf, j);
      linked := linked + {node};
      lf.groupNodes := Some(lf.groupNodes.value[j := l.last]);
      AddedKeepsValid(l, node, dropped, lf);
    }

    twostate lemma ClaimantStaysOk(new l: OSList, new node: OSListNode, new dropped: OSListNode?, new lf: Eventinfo)
      requires old(allocated(l) && allocated(lf) && Valid()) && l in lists && lf in live && Added(l, node, dropped, lf)
      requires Claims(l, node, lf)
      requires ListOfRule(l, node, lf)
      ensures EventOk(lf) && NodeOk(node)
    {
      assert forall m | m in old(l.nodes) :: old(m.owner) == l;
      hide OSList.Linked;
      hide OSList.Valid;
      assert old(EventOk(lf));
      if dropped != null {
        assert dropped in old(l.nodes);
        assert old(NodeOk(dropped));
      }
    }

    /** The list is the one the generating rule keeps for this back-pointer. */
    ghost predicate ListOfRule(l: OSList, node: OSListNode, lf: Eventinfo)
      reads lf, node
    {
      && lf.generatedRule != null
      && if l.clearsSid then l == lf.generatedRule.sidPrevMatched
         else node.slot < |lf.generatedRule.groupPrevMatched| && l == lf.generatedRule.groupPrevMatched[node.slot]
    }

    twostate lemma ListsStayOk(new l: OSList, new node: OSListNode, new dropped: OSListNode?, new lf: Eventinfo)
      requires old(allocated(l) && allocated(lf) && Valid()) && l in lists && lf in live && Added(l, node, dropped, lf)
      ensures forall m | m in lists :: m.Valid()
      ensures forall m, n | m in lists && n in m.nodes :: n in linked
    {
      OwnNodesLinked(l, node, dropped, lf);
      forall m, n | m in lists && n in m.nodes ensures n in linked {
        if m != l { OthersStayValid(l, node, dropped, lf, m); }
      }
      forall m | m in lists ensures m.Valid() {
        if m != l { OthersStayValid(l, node, dropped, lf, m); }
      }
    }

    twostate lemma AddedKeepsValid(new l: OSList, new node: OSListNode, new dropped: OSListNode?, new lf: Eventinfo)
      requires old(allocated(l) && allocated(lf) && Valid()) && l in lists && lf in live && Added(l, node, dropped, lf)
      requires Claims(l, node, lf)
      requires ListOfRule(l, node, lf)
      ensures Valid()
    {
      ListsStayOk(l, node, dropped, lf);
      hide *;
      ClaimantStaysOk(l, node, dropped, lf);
      forall n | n in linked ensures NodeOk(n) {
        if n != node { NodeStaysOk(l, node, dropped, lf, n); }
      }
      forall e | e in live ensures EventOk(e) {
        if e != lf { EventStaysOk(l, node, dropped, lf, e); }
      }
    }

    lemma ListIsValid(l: OSList)
      requires Valid() && l in lists
      ensures l.Valid()
    {
    }

    lemma ListFrame(l: OSList)
      requires Valid() && l in lists
      ensures forall n | n in l.nodes :: n in linked
      ensures l.CallbackTarget() <= live
    {
      if l.nodes != [] {
        assert NodeOk(l.nodes[0]);
      }
    }

    /** The first `j` back-pointers of a registered event are set, the others are not yet. */
    ghost predicate GroupsFilled(lf: Eventinfo, rule: RuleInfo, j: nat)
      reads this, lf
    {
      && Loaded(rule) && lf in live && lf.generatedRule == rule
      && lf.groupNodes.Some? && |lf.groupNodes.value| == |rule.groupPrevMatched| && j <= |rule.groupPrevMatched|
      && (forall k | 0 <= k < j :: lf.groupNodes.value[k] != null)
      && (forall k | j <= k < |rule.groupPrevMatched| :: lf.groupNodes.value[k] == null)
    }

    method AllocGroupNodes(lf: Eventinfo, rule: RuleInfo)
      requires Valid() && Loaded(rule) && lf in live && lf.generatedRule == rule && lf.groupNodes == None
      modifies lf`groupNodes
      ensures Valid() && GroupsFilled(lf, rule, 0)
    {
      var none: seq<OSListNode?> := seq(|rule.groupPrevMatched|, _ => null);
      lf.groupNodes := Some(none);
    }

    method NextGroup(lf: Eventinfo, rule: RuleInfo, j: nat)
      requires Valid() && GroupsFilled(lf, rule, j) && j < |rule.groupPrevMatched|
      modifies this`linked, lists, linked, lf`groupNodes
      ensures Valid() && GroupsFilled(lf, rule, j + 1)
      ensures rule.groupPrevMatched[j].nodes == old(rule.groupPrevMatched[j].nodes) + [lf.groupNodes.value[j]]
      ensures forall l | l in lists && l != rule.groupPrevMatched[j] :: l.nodes == old(l.nodes)
      ensures lf.groupNodes.value == old(lf.groupNodes.value)[j := lf.groupNodes.value[j]]
      ensures fresh(linked - old(linked))
    {
      hide OSList.Valid;
      ListFrame(rule.groupPrevMatched[j]);
      hide Valid;
      AddGroup(lf, rule.groupPrevMatched[j], j);
    }

    /** The group half: `lf` enters every group list of its rule, once per position. */
    method FillGroups(lf: Eventinfo, rule: RuleInfo)
      requires Valid() && GroupsFilled(lf, rule, 0)
      modifies this`linked, lists, linked, lf`groupNodes
      ensures Valid() && GroupsFilled(lf, rule, |rule.groupPrevMatched|)
      ensures forall l | l in lists ::
        l.nodes == old(l.nodes) + Entered(rule.groupPrevMatched, GroupNodes(lf), l, |rule.groupPrevMatched|)
    {
      hide *;
      EnteredNone(rule.groupPrevMatched, GroupNodes(lf));
      var j := 0;
      while j < |rule.groupPrevMatched|
        invariant j <= |rule.groupPrevMatched| && Valid() && GroupsFilled(lf, rule, j)
        invariant fresh(linked - old(linked))
        invariant forall l | l in lists ::
          l.nodes == old(l.nodes) + Entered(rule.groupPrevMatched, GroupNodes(lf), l, j)
      {
        ghost var was := GroupNodes(lf);
        NodesOfGroups(lf, rule, j);
        NextGroup(lf, rule, j);
        NodesOfGroups(lf, rule, j + 1);
        forall l | l in lists
          ensures l.nodes == old(l.nodes) + Entered(rule.groupPrevMatched, GroupNodes(lf), l, j + 1)
        {
          EnteredOneMore(rule.groupPrevMatched, was, GroupNodes(lf), l, j);
          if l == rule.groupPrevMatched[j] {
            assert l.nodes == old(l.nodes) + (Entered(rule.groupPrevMatched, was, l, j) + [GroupNodes(lf)[j]]);
          }
        }
        j := j + 1;
      }
    }

    lemma NodesOfGroups(lf: Eventinfo, rule: RuleInfo, j: nat)
      requires GroupsFilled(lf, rule, j)
      ensures lf.groupNodes.Some? && GroupNodes(lf) == lf.groupNodes.value
      ensures |GroupNodes(lf)| == |rule.groupPrevMatched|
    {
    }

    /** The group lists of the rule, if it has any. */
    method RegisterGroups(lf: Eventinfo, rule: RuleInfo)
      requires Valid() && Loaded(rule) && lf in live && lf.generatedRule == rule && lf.groupNodes == None
      modifies this`linked, lists, linked, lf`groupNodes
      ensures Valid()
      ensures if rule.groupPrevMatched == [] then lf.groupNodes == None
        else GroupsFilled(lf, rule, |rule.groupPrevMatched|)
      ensures forall l | l in lists ::
        l.nodes == old(l.nodes) + Entered(rule.groupPrevMatched, GroupNodes(lf), l, |rule.groupPrevMatched|)
    {
      hide Valid, OSList.Valid, GroupsFilled, Loaded, Entered, GroupNodes;
      if rule.groupPrevMatched == [] {
        EnteredNone(rule.groupPrevMatched, GroupNodes(lf));
      } else {
        AllocGroupNodes(lf, rule);
        FillGroups(lf, rule);
      }
    }

    /** Everything that happens to a matched event before it enters the history of its shard. */
    method RegisterMatched(lf: Eventinfo, rule: RuleInfo)
      requires Valid() && Loaded(rule) && lf in live
      requires lf.generatedRule == rule && lf.sidNode == null && lf.groupNodes == None
      modifies this`linked, lists, linked, live`sidNode, lf`groupNodes
      ensures Valid()
      ensures rule.sidPrevMatched != null ==>
        && lf.sidNode != null
        && rule.sidPrevMatched.nodes
          == TailAppended(old(rule.sidPrevMatched.nodes), rule.sidPrevMatched.maxSize, lf.sidNode)
      ensures if rule.groupPrevMatched == [] then lf.groupNodes == None
        else GroupsFilled(lf, rule, |rule.groupPrevMatched|)
      ensures forall l | l in lists && l != rule.sidPrevMatched ::
        l.nodes == old(l.nodes) + Entered(rule.groupPrevMatched, GroupNodes(lf), l, |rule.groupPrevMatched|)
    {
      hide Valid, OSList.Valid, GroupsFilled, ListOfRule, Entered, GroupNodes, TailAppended;
      assert rule.sidPrevMatched != null ==> rule.sidPrevMatched !in rule.groupPrevMatched;
      if rule.sidPrevMatched != null {
        ListFrame(rule.sidPrevMatched);
        AddSid(lf, rule.sidPrevMatched);
      }
      hide Loaded;
      RegisterGroups(lf, rule);
      if rule.sidPrevMatched != null {
        EnteredElsewhere(rule.groupPrevMatched, GroupNodes(lf), rule.sidPrevMatched, |rule.groupPrevMatched|);
      }
    }

    // -------------------------------------------------------------------------------------------
    // Free_Eventinfo

    /** A list lost one node; nothing else changed but the back-pointers of `lf`. */
    twostate predicate Dropped(l: OSList, node: OSListNode, lf: Eventinfo)
      reads *
    {
      && lists == old(lists) && live == old(live)
      && linked == old(linked) - {node} && node.freed
      && l.Valid()
      && (forall n | n in l.nodes :: n in old(l.nodes) && n != node)
      && (forall n | n in old(l.nodes) && n != node :: n in l.nodes && n.owner == l && n.slot == old(n.slot))
      && (forall m | m in lists && m != l :: unchanged(m))
      && (forall n | n in old(linked) && n !in old(l.nodes) :: unchanged(n))
      && (forall e | e in live && e != lf :: unchanged(e))
    }

    twostate lemma DroppedOthersValid(new l: OSList, new node: OSListNode, new lf: Eventinfo, m: OSList)
      requires old(allocated(l) && allocated(node) && allocated(lf) && ListsOk()) && l in lists && Dropped(l, node, lf)
      requires m in lists && m != l && node in old(l.nodes)
      ensures m.Valid()
      ensures forall n | n in m.nodes :: n in linked
    {
      forall n | n in m.nodes ensures n !in old(l.nodes) && n in old(linked) {
        assert old(n.owner) == m;
      }
      m.StaysValid();
    }

    twostate lemma DroppedListsOk(new l: OSList, new node: OSListNode, new lf: Eventinfo)
      requires old(allocated(l) && allocated(node) && allocated(lf) && ListsOk()) && l in lists && Dropped(l, node, lf)
      requires node in old(l.nodes)
      ensures ListsOk()
    {
      hide OSList.Linked, OSList.Valid;
      forall m | m in lists && m != l ensures m.Valid() && forall n | n in m.nodes :: n in linked {
        DroppedOthersValid(l, node, lf, m);
      }
    }

    twostate lemma DroppedNodesOk(new l: OSList, new node: OSListNode, new lf: Eventinfo, n: OSListNode)
      requires old(allocated(l) && allocated(node) && allocated(lf) && ListsOk()) && l in lists && Dropped(l, node, lf)
      requires n in linked && old(NodeOk(n)) && node in old(l.nodes) && lf in live
      requires unchanged(lf`groupNodes) && (unchanged(lf`sidNode) || old(lf.sidNode) == node)
      ensures NodeOk(n) && n.owner == old(n.owner) && n.slot == old(n.slot)
    {
      assert forall m | m in old(l.nodes) :: old(m.owner) == l;
      hide OSList.Linked, OSList.Valid;
      if n in old(l.nodes) {
        assert n in l.nodes;
      }
    }

    twostate lemma DroppedEventsOk(new l: OSList, new node: OSListNode, new lf: Eventinfo, e: Eventinfo)
      requires old(allocated(l) && allocated(node) && allocated(lf) && ListsOk()) && l in lists && Dropped(l, node, lf)
      requires e in live && e != lf && old(EventOk(e)) && node in old(l.nodes) && node.data == lf
      ensures EventOk(e)
    {
      assert forall m | m in old(l.nodes) :: old(m.owner) == l;
      hide OSList.Linked, OSList.Valid;
    }

    /** `lf` left its sid list and its first `i` group lists; for all other events nothing is different. */
    ghost predicate Unlinking(lf: Eventinfo, i: nat)
      reads this, lists, live, linked, lf
    {
      && ListsOk()
      && (forall n | n in linked :: NodeOk(n))
      && (forall e | e in live && e != lf :: EventOk(e))
      && lf in live && !lf.freed && lf.sidNode == null
      && lf.generatedRule != null && lf.groupNodes.Some?
      && i <= |lf.groupNodes.value| == |lf.generatedRule.groupPrevMatched|
      && (forall j | i <= j < |lf.groupNodes.value| && lf.groupNodes.value[j] != null ::
            lf.groupNodes.value[j] in linked && GroupNodeOk(lf, j, lf.groupNodes.value[j]))
      && (forall n | n in linked && n.data == lf :: i <= n.slot)
    }

    twostate lemma SidUnlinked(new l: OSList, new node: OSListNode, new lf: Eventinfo)
      requires old(allocated(l) && allocated(node) && allocated(lf) && Valid()) && l in lists && lf in live
      requires node in old(l.nodes) && Dropped(l, node, lf)
      requires old(lf.sidNode) == node && lf.sidNode == null
      requires unchanged(lf`groupNodes) && unchanged(lf`freed) && unchanged(lf`generatedRule)
      ensures Valid()
    {
      assert old(EventOk(lf));
      DroppedListsOk(l, node, lf);
      forall n | n in linked ensures NodeOk(n) && n.owner == old(n.owner) && n.slot == old(n.slot) {
        DroppedNodesOk(l, node, lf, n);
      }
      forall e | e in live && e != lf ensures EventOk(e) {
        DroppedEventsOk(l, node, lf, e);
      }
    }

    /** The nodes that went out of use belonged to `lf` and are freed; all others kept their order. */
    twostate predicate OnlyLost(lf: Eventinfo)
      reads *
    {
      && lists == old(lists) && live == old(live)
      && (forall n | n in linked :: n in old(linked))
      && (forall n | n in old(linked) && n !in linked :: n.data == lf && n.freed)
      && (forall l | l in lists :: l.nodes == Only(old(l.nodes), linked))
    }

    lemma NothingLost()
      requires ListsOk()
      ensures forall l | l in lists :: l.nodes == Only(l.nodes, linked)
    {
      hide OSList.Valid;
      forall l | l in lists ensures l.nodes == Only(l.nodes, linked) {
        OnlyAll(l.nodes, linked);
      }
    }

    twostate lemma OrderKept(new l: OSList, new node: OSListNode, new lf: Eventinfo, k: nat)
      requires old(allocated(l) && allocated(node) && allocated(lf) && ListsOk()) && l in lists && Dropped(l, node, lf)
      requires k < |old(l.nodes)| && old(l.nodes)[k] == node && l.nodes == Without(old(l.nodes), k)
      ensures forall m | m in lists :: m.nodes == Only(old(m.nodes), linked)
    {
      assert old(l.Valid());
      OnlyWithout(old(l.nodes), k, linked);
      forall m | m in lists && m != l ensures m.nodes == Only(old(m.nodes), linked) {
        DroppedOthersValid(l, node, lf, m);
        OnlyAll(m.nodes, linked);
      }
    }

    lemma LiveListsOk()
      requires Valid()
      ensures ListsOk()
    {
    }

    lemma UnlinkingListsOk(lf: Eventinfo, i: nat)
      requires Unlinking(lf, i)
      ensures ListsOk()
    {
    }

    lemma SidNodePlace(lf: Eventinfo)
      requires Valid() && lf in live && lf.sidNode != null
      ensures lf.generatedRule != null && lf.generatedRule.sidPrevMatched != null
      ensures var l := lf.generatedRule.sidPrevMatched;
        && lf.sidNode.data == lf && l in lists && l.Valid() && lf.sidNode in l.nodes
        && forall n | n in l.nodes :: n in linked
    {
      assert EventOk(lf) && NodeOk(lf.sidNode);
    }

    lemma GroupNodePlace(lf: Eventinfo, i: nat)
      requires Unlinking(lf, i)
      ensures lf in live && lf.generatedRule != null
      ensures lf.groupNodes.Some? && |lf.groupNodes.value| == |lf.generatedRule.groupPrevMatched|
      ensures i < |lf.groupNodes.value| && lf.groupNodes.value[i] != null ==>
        var l := lf.generatedRule.groupPrevMatched[i];
        && lf.groupNodes.value[i].data == lf && l in lists && l.Valid() && lf.groupNodes.value[i] in l.nodes
        && forall n | n in l.nodes :: n in linked
    {
      if i < |lf.groupNodes.value| && lf.groupNodes.value[i] != null {
        assert NodeOk(lf.groupNodes.value[i]);
      }
    }

    method UnlinkSid(lf: Eventinfo)
      requires Valid() && lf in live && lf.sidNode != null
      modifies this`linked, lists, linked, lf`sidNode
      ensures Valid() && lf.sidNode == null
      ensures OnlyLost(lf)
    {
      hide OSList.Linked, OSList.Valid, NodeOk, EventOk, ListsOk, Valid, Only, Without;
      SidNodePlace(lf);
      var l, node := lf.generatedRule.sidPrevMatched, lf.sidNode;
      LiveListsOk();
      ghost var k := l.DeleteThisNode(node);
      linked := linked - {node};
      lf.sidNode := null;
      SidUnlinked(l, node, lf);
      OrderKept(l, node, lf, k);
    }

    /** The node at a later position of `lf` stays in use and in place. */
    twostate lemma LaterGroupOk(new l: OSList, new node: OSListNode, new lf: Eventinfo, j: nat, new n: OSListNode)
      requires old(allocated(l) && allocated(node) && allocated(lf) && allocated(n) && ListsOk()) && l in lists
      requires node in old(l.nodes) && Dropped(l, node, lf) && unchanged(lf)
      requires n in old(linked) && n != node && old(GroupNodeOk(lf, j, n))
      ensures n in linked && GroupNodeOk(lf, j, n)
    {
      assert forall m | m in old(l.nodes) :: old(m.owner) == l;
      hide OSList.Linked, OSList.Valid;
      if n in old(l.nodes) {
        assert n in l.nodes;
      }
    }

    twostate lemma GroupUnlinked(new l: OSList, new node: OSListNode, new lf: Eventinfo, i: nat)
      requires old(allocated(l) && allocated(node) && allocated(lf) && Unlinking(lf, i)) && l in lists
      requires node in old(l.nodes) && Dropped(l, node, lf) && unchanged(lf)
      requires i < |lf.groupNodes.value| && lf.groupNodes.value[i] == node
      ensures Unlinking(lf, i + 1)
    {
      hide OSList.Linked, OSList.Valid;
      assert old(NodeOk(node));
      DroppedListsOk(l, node, lf);
      hide ListsOk, EventOk;
      forall n | n in linked ensures NodeOk(n) && n.owner == old(n.owner) && n.slot == old(n.slot) {
        DroppedNodesOk(l, node, lf, n);
      }
      forall e | e in live && e != lf ensures EventOk(e) {
        DroppedEventsOk(l, node, lf, e);
      }
      forall j | i < j < |lf.groupNodes.value| && lf.groupNodes.value[j] != null
        ensures lf.groupNodes.value[j] in linked && GroupNodeOk(lf, j, lf.groupNodes.value[j])
      {
        LaterGroupOk(l, node, lf, j, lf.groupNodes.value[j]);
      }
    }

    method UnlinkGroup(lf: Eventinfo, i: nat)
      requires Unlinking(lf, i) && i < |lf.generatedRule.groupPrevMatched|
      modifies this`linked, lists, linked
      ensures Unlinking(lf, i + 1)
      ensures OnlyLost(lf)
    {
      hide OSList.Linked, OSList.Valid, NodeOk, EventOk, ListsOk, Valid, Unlinking, Only, Without;
      GroupNodePlace(lf, i);
      var l, node := lf.generatedRule.groupPrevMatched[i], lf.groupNodes.value[i];
      UnlinkingListsOk(lf, i);
      if node == null {
        SkipGroup(lf, i);
        NothingLost();
        return;
      }
      ghost var k := l.DeleteThisNode(node);
      linked := linked - {node};
      GroupUnlinked(l, node, lf, i);
      OrderKept(l, node, lf, k);
    }

    lemma SkipGroup(lf: Eventinfo, i: nat)
      requires Unlinking(lf, i) && i < |lf.groupNodes.value| && lf.groupNodes.value[i] == null
      ensures Unlinking(lf, i + 1)
    {
      forall n | n in linked && n.data == lf
        ensures i + 1 <= n.slot
      {
        assert NodeOk(n);
      }
    }

    method UnlinkGroups(lf: Eventinfo)
      requires Unlinking(lf, 0)
      modifies this`linked, lists, linked, lf`groupNodes
      ensures Valid() && lf.groupNodes == None && lf.sidNode == null && NoNodes(lf)
      ensures OnlyLost(lf)
    {
      hide OSList.Linked, OSList.Valid, NodeOk, EventOk, ListsOk, Valid, Unlinking, NoNodes, Only;
      GroupNodePlace(lf, 0);
      UnlinkingListsOk(lf, 0);
      NothingLost();
      var i := 0;
      while i < |lf.generatedRule.groupPrevMatched|
        invariant i <= |lf.generatedRule.groupPrevMatched|
        invariant Unlinking(lf, i) && OnlyLost(lf)
      {
        ghost var was := linked;
        UnlinkGroup(lf, i);
        forall l | l in lists ensures l.nodes == Only(old(l.nodes), linked) {
          OnlyTwice(old(l.nodes), was, linked);
        }
        i := i + 1;
      }
      FreeGroupNodes(lf);
    }

    ghost predicate NoNodes(lf: Eventinfo)
      reads this, linked
    {
      forall n | n in linked :: n.data != lf
    }

    method FreeGroupNodes(lf: Eventinfo)
      requires lf.generatedRule != null && Unlinking(lf, |lf.generatedRule.groupPrevMatched|)
      modifies lf`groupNodes
      ensures Valid() && lf.groupNodes == None && lf.sidNode == null && NoNodes(lf)
    {
      assert forall n | n in linked :: NodeOk(n);
      lf.groupNodes := None;
    }

    lemma NoGroupNodes(lf: Eventinfo)
      requires Valid() && lf in live && lf.sidNode == null
      ensures lf.groupNodes == None ==> NoNodes(lf)
      ensures lf.groupNodes.Some? ==> Unlinking(lf, 0)
    {
      assert EventOk(lf);
      forall n | n in linked && n.data == lf ensures lf.groupNodes.Some? {
        assert NodeOk(n);
      }
    }

    ghost method Retire(lf: Eventinfo)
      requires Valid() && lf in live && lf.sidNode == null && lf.groupNodes == None && NoNodes(lf)
      modifies this`live, lf`freed
      ensures Valid() && live == old(live) - {lf} && lf.freed && NoNodes(lf)
    {
      hide OSList.Valid, OSList.Linked;
      assert forall n | n in linked :: NodeOk(n);
      live := live - {lf};
      lf.freed := true;
    }

    /** Free_Eventinfo: every node of the event is unlinked, each exactly once, before the event goes. */
    method FreeEvent(lf: Eventinfo)
      requires Valid() && lf in live
      modifies this`linked, this`live, lists, linked, lf`sidNode, lf`groupNodes, lf`freed
      ensures Valid() && live == old(live) - {lf} && lf.freed && NoNodes(lf)
      ensures linked == NodesLess(old(linked), [lf])
      ensures forall n | n in old(linked) && n !in linked :: n.freed
      ensures forall l | l in lists :: l.nodes == Only(old(l.nodes), linked)
    {
      hide OSList.Linked, OSList.Valid, NodeOk, EventOk, ListsOk, Valid, Unlinking, NoNodes, Only;
      LiveListsOk();
      NothingLost();
      if lf.sidNode != null {
        UnlinkSid(lf);
      }
      NoGroupNodes(lf);
      if lf.groupNodes.Some? {
        ghost var was := linked;
        UnlinkGroups(lf);
        forall l | l in lists ensures l.nodes == Only(old(l.nodes), linked) {
          OnlyTwice(old(l.nodes), was, linked);
        }
      }
      Retire(lf);
      OnlyItsNodes(old(linked), lf);
    }

    lemma OnlyItsNodes(was: set<OSListNode>, lf: Eventinfo)
      requires NoNodes(lf) && linked <= was && forall n | n in was && n !in linked :: n.data == lf
      ensures linked == NodesLess(was, [lf])
    {
      forall n ensures n in linked <==> n in NodesLess(was, [lf]) {
      }
    }
  }

  /** The nodes that are not of these events. */
  ghost function NodesLess(was: set<OSListNode>, es: seq<Eventinfo>): set<OSListNode> {
    set n | n in was && n.data !in es
  }

  lemma NodesLessMore(was: set<OSListNode>, es: seq<Eventinfo>, e: Eventinfo)
    ensures NodesLess(NodesLess(was, es), [e]) == NodesLess(was, es + [e])
    ensures NodesLess(was, es + [e]) <= NodesLess(was, es) <= was
  {
  }

  lemma NoNodesLess(was: set<OSListNode>)
    ensures NodesLess(was, []) == was
  {
  }

  ghost function GroupNodes(lf: Eventinfo): seq<OSListNode?>
    reads lf
  {
    if lf.groupNodes.Some? then lf.groupNodes.value else []
  }

  /** The nodes that an event got in the list `l` for the first `j` positions of its rule. */
  ghost function Entered(ls: seq<OSList>, ns: seq<OSListNode?>, l: OSList, j: nat): seq<OSListNode?> {
    if j == 0 || j > |ls| || j > |ns| then []
    else if ls[j - 1] == l then Entered(ls, ns, l, j - 1) + [ns[j - 1]]
    else Entered(ls, ns, l, j - 1)
  }

  lemma EnteredNone(ls: seq<OSList>, ns: seq<OSListNode?>)
    ensures forall l :: Entered(ls, ns, l, 0) == []
    ensures ls == [] ==> forall l, j :: Entered(ls, ns, l, j) == []
  {
  }

  lemma {:induction false} EnteredElsewhere(ls: seq<OSList>, ns: seq<OSListNode?>, l: OSList, j: nat)
    requires l !in ls
    ensures Entered(ls, ns, l, j) == []
  {
    if 0 < j <= |ls| {
      EnteredElsewhere(ls, ns, l, j - 1);
    }
  }

  lemma {:induction false} EnteredBelow(ls: seq<OSList>, was: seq<OSListNode?>, ns: seq<OSListNode?>, l: OSList, j: nat)
    requires |was| == |ns| && j <= |ns| && forall k | 0 <= k < j :: was[k] == ns[k]
    ensures Entered(ls, was, l, j) == Entered(ls, ns, l, j)
  {
    if j > 0 {
      EnteredBelow(ls, was, ns, l, j - 1);
    }
  }

  lemma EnteredOneMore(ls: seq<OSList>, was: seq<OSListNode?>, ns: seq<OSListNode?>, l: OSList, j: nat)
    requires j < |ls| == |ns| == |was| && ns == was[j := ns[j]]
    ensures Entered(ls, ns, l, j + 1) == Entered(ls, was, l, j) + (if ls[j] == l then [ns[j]] else [])
  {
    EnteredBelow(ls, was, ns, l, j);
  }

  /** The elements of `s` that are in `keep`, in their order. */
  ghost function Only<T>(s: seq<T>, keep: set<T>): seq<T> {
    if s == [] then [] else if s[0] in keep then [s[0]] + Only(s[1..], keep) else Only(s[1..], keep)
  }

  lemma {:induction false} OnlyAll<T>(s: seq<T>, keep: set<T>)
    requires forall x | x in s :: x in keep
    ensures Only(s, keep) == s
  {
    if s != [] {
      OnlyAll(s[1..], keep);
    }
  }

  lemma {:induction false} OnlyKeeps<T>(s: seq<T>, keep: set<T>)
    ensures forall x | x in Only(s, keep) :: x in s && x in keep
  {
    if s != [] {
      OnlyKeeps(s[1..], keep);
    }
  }

  lemma {:induction false} OnlyTwice<T>(s: seq<T>, a: set<T>, b: set<T>)
    requires b <= a
    ensures Only(Only(s, a), b) == Only(s, b)
  {
    if s != [] {
      OnlyTwice(s[1..], a, b);
      if s[0] in a {
        assert Only(s, a)[1..] == Only(s[1..], a);
      }
    }
  }

  lemma {:induction false} OnlyWithout<T>(s: seq<T>, k: nat, keep: set<T>)
    requires k < |s| && forall i | 0 <= i < |s| :: s[i] in keep <==> i != k
    ensures Only(s, keep) == Without(s, k)
  {
    if k == 0 {
      OnlyAll(s[1..], keep);
    } else {
      OnlyWithout(s[1..], k - 1, keep);
    }
  }

  /** A bounded list after appending: the oldest element gives way when the list is full. */
  function TailAppended<T>(s: seq<T>, bound: nat, x: T): seq<T> {
    (if bound > 0 && |s| == bound then s[1..] else s) + [x]
  }
}
