/** `cnode_revoke_subtree`: empty a CNode, revoking the plain capabilities it holds and descending
    into the nodes it holds.  CNodes may be shared and may form cycles. */
module NodeRevoke {
  import opened Capability
  import opened Operations
  import opened CSpace
  import Revocation
  import Lineage
  import Forest

  datatype World = World(s: State, nodes: seq<Node>) {
    function Space(): Space {
      CSpace.Space(s.g, nodes)
    }
  }

  function Vacant(slot: NodeSlot): NodeSlot {
    NodeSlot(0, slot.mask, false, false)
  }

  function Vacate(w: World, n: nat, i: nat): World
    requires n < |w.nodes| && i < |w.nodes[n].slots|
  {
    var node := w.nodes[n];
    w.(nodes := w.nodes[n := node.(slots := node.slots[i := Vacant(node.slots[i])])])
  }

  /** The same nodes with the same numbers of slots. */
  ghost predicate SameShape(ns: seq<Node>, ms: seq<Node>) {
    |ns| == |ms| && forall m :: 0 <= m < |ns| ==> |ns[m].slots| == |ms[m].slots|
  }

  /** The world after a purge, and the capabilities `cap_revoke` was called on, in order. */
  datatype Purge = Purge(w: World, revoked: seq<Slot>)

  /** `cnode_revoke_subtree_impl` */
  function RevokeNode(w: World, cap: CapId, depth: nat): (p: Purge)
    ensures SameShape(w.nodes, p.w.nodes)
    decreases CNODE_MAX_DEPTH + 1 - depth, 1, 0
  {
    if depth > CNODE_MAX_DEPTH || NodeOf(w.Space(), cap).None? then Purge(w, [])
    else RevokeSlots(w, NodeOf(w.Space(), cap).value, 0, depth)
  }

  /** Its loop, from slot `i` of node `n` on. */
  function RevokeSlots(w: World, n: nat, i: nat, depth: nat): (p: Purge)
    requires n < |w.nodes| && depth <= CNODE_MAX_DEPTH
    ensures SameShape(w.nodes, p.w.nodes)
    decreases CNODE_MAX_DEPTH + 1 - depth, 0, |w.nodes[n].slots| - i
  {
    if i >= |w.nodes[n].slots| then Purge(w, [])
    else
      var slot := w.nodes[n].slots[i];
      if !slot.valid then RevokeSlots(w, n, i + 1, depth)
      else
        var p := if slot.nested then RevokeNode(w, slot.cap, depth + 1) else RevokePlain(w, slot.cap);
        var rest := RevokeSlots(Vacate(p.w, n, i), n, i + 1, depth);
        Purge(rest.w, p.revoked + rest.revoked)
  }

  function RevokePlain(w: World, cap: Slot): Purge {
    Purge(w.(s := Revoke(w.s, cap).s), [cap])
  }

  // ---------------------------------------------------------------- in place

  /** The node pool and the capability state, changed in place.  `cap_revoke` in place is
      `System.RevokeCap`, which computes `Revoke`. */
  class NodePool {
    var s: State
    var nodes: seq<Node>

    function Contents(): World
      reads this
    {
      World(s, nodes)
    }

    method RevokeSubtree(cap: CapId, depth: nat)
      modifies this
      ensures Contents() == RevokeNode(old(Contents()), cap, depth).w
      decreases CNODE_MAX_DEPTH + 1 - depth
    {
      hide Revoke, NodeOf;
      if depth > CNODE_MAX_DEPTH { return; }
      var at := NodeOf(Contents().Space(), cap);
      if at.None? { return; }
      var n := at.value;
      var i := 0;
      while i < |nodes[n].slots|
        invariant n < |nodes|
        invariant RevokeSlots(Contents(), n, i, depth).w == RevokeNode(old(Contents()), cap, depth).w
        decreases |nodes[n].slots| - i
      {
        var slot := nodes[n].slots[i];
        if slot.valid {
          if slot.nested {
            RevokeSubtree(slot.cap, depth + 1);
          } else {
            s := Revoke(s, slot.cap).s;
          }
          nodes := Vacate(Contents(), n, i).nodes;
        }
        i := i + 1;
      }
    }
  }

  // ---------------------------------------------------------------- nothing comes back

  /** Slots only ever become vacant. */
  ghost predicate Thinned(ns: seq<Node>, ms: seq<Node>) {
    && SameShape(ns, ms)
    && forall m, i :: 0 <= m < |ns| && 0 <= i < |ns[m].slots| ==>
         ms[m].slots[i] == ns[m].slots[i] || ms[m].slots[i] == Vacant(ns[m].slots[i])
  }

  /** Capabilities only ever disappear. */
  ghost predicate Fewer(g: Graph, h: Graph) {
    forall c: CapId :: Live(h, c) ==> Live(g, c) && h.table[c] == g.table[c]
  }

  /** A plain capability whose slot was emptied is gone. */
  ghost predicate Accounted(w: World, v: World)
    requires SameShape(w.nodes, v.nodes)
  {
    forall m, i :: 0 <= m < |w.nodes| && 0 <= i < |w.nodes[m].slots| ==>
      var slot := w.nodes[m].slots[i];
      slot.valid && !slot.nested && !v.nodes[m].slots[i].valid ==> !Live(v.s.g, slot.cap)
  }

  ghost predicate Purged(w: World, v: World) {
    Lineage.Tidy(v.s.g) && Thinned(w.nodes, v.nodes) && Fewer(w.s.g, v.s.g) && Accounted(w, v)
  }

  lemma PurgedTrans(u: World, v: World, w: World)
    requires Purged(u, v) && Purged(v, w)
    ensures Purged(u, w)
  {
    hide Live, Lineage.Tidy;
  }

  /** `cap_revoke` in any tidy state: the capability is gone and nothing new is present. */
  lemma RevokeFewer(s: State, cap: CapId)
    requires Lineage.Tidy(s.g)
    ensures var h := Revoke(s, cap).s.g; Lineage.Tidy(h) && Fewer(s.g, h) && !Live(h, cap)
  {
    hide RevokeFrom, ReleaseAll;
    if cap != 0 {
      Revocation.RevokeFromSweeps(s.g, cap, 0);
    }
  }

  lemma PlainPurged(w: World, n: nat, i: nat)
    requires n < |w.nodes| && i < |w.nodes[n].slots| && Lineage.Tidy(w.s.g)
    requires w.nodes[n].slots[i].valid && !w.nodes[n].slots[i].nested
    ensures Purged(w, Vacate(RevokePlain(w, w.nodes[n].slots[i].cap).w, n, i))
  {
    hide Revoke, Live, Lineage.Tidy;
    RevokeFewer(w.s, w.nodes[n].slots[i].cap);
  }

  lemma NestedPurged(w: World, v: World, n: nat, i: nat)
    requires Purged(w, v) && n < |w.nodes| == |v.nodes| && i < |w.nodes[n].slots| == |v.nodes[n].slots|
    requires w.nodes[n].slots[i].nested
    ensures Purged(w, Vacate(v, n, i))
  {
    hide Live, Lineage.Tidy;
  }

  /** On any graph of nodes: slots only empty, capabilities only disappear, and every plain
      capability whose slot was emptied, in whatever node, is gone. */
  lemma {:induction false} RevokeNodePurges(w: World, cap: CapId, depth: nat)
    requires Lineage.Tidy(w.s.g)
    ensures Purged(w, RevokeNode(w, cap, depth).w)
    decreases CNODE_MAX_DEPTH + 1 - depth, 1, 0
  {
    hide Lineage.Tidy, Live, NodeOf;
    if depth <= CNODE_MAX_DEPTH && NodeOf(w.Space(), cap).Some? {
      RevokeSlotsPurges(w, NodeOf(w.Space(), cap).value, 0, depth);
    }
  }

  lemma {:induction false} RevokeSlotsPurges(w: World, n: nat, i: nat, depth: nat)
    requires Lineage.Tidy(w.s.g) && n < |w.nodes| && depth <= CNODE_MAX_DEPTH
    ensures Purged(w, RevokeSlots(w, n, i, depth).w)
    ensures forall j :: i <= j < |w.nodes[n].slots| ==> !RevokeSlots(w, n, i, depth).w.nodes[n].slots[j].valid
    decreases CNODE_MAX_DEPTH + 1 - depth, 0, |w.nodes[n].slots| - i
  {
    hide Purged, Lineage.Tidy, RevokeNode;
    if i < |w.nodes[n].slots| {
      var slot := w.nodes[n].slots[i];
      if !slot.valid {
        RevokeSlotsPurges(w, n, i + 1, depth);
        StaysEmpty(w, RevokeSlots(w, n, i, depth).w, n, i);
      } else {
        var p := if slot.nested then RevokeNode(w, slot.cap, depth + 1) else RevokePlain(w, slot.cap);
        var v := Vacate(p.w, n, i);
        if slot.nested {
          RevokeNodePurges(w, slot.cap, depth + 1);
          NestedPurged(w, p.w, n, i);
        } else {
          PlainPurged(w, n, i);
        }
        PurgedTidy(w, v);
        RevokeSlotsPurges(v, n, i + 1, depth);
        var r := RevokeSlots(v, n, i + 1, depth).w;
        StaysEmpty(v, r, n, i);
        PurgedTrans(w, v, r);
      }
    } else {
      PurgedSelf(w);
    }
  }

  lemma PurgedSelf(w: World)
    requires Lineage.Tidy(w.s.g)
    ensures Purged(w, w)
  {
    hide Live, Lineage.Tidy;
  }

  lemma PurgedTidy(w: World, v: World)
    requires Purged(w, v)
    ensures Lineage.Tidy(v.s.g)
  {
    hide Live, Lineage.Tidy;
  }

  lemma StaysEmpty(w: World, v: World, n: nat, i: nat)
    requires Purged(w, v) && SameShape(w.nodes, v.nodes) && n < |w.nodes| && i < |w.nodes[n].slots|
    requires !w.nodes[n].slots[i].valid
    ensures !v.nodes[n].slots[i].valid
  {
    hide Live, Lineage.Tidy;
  }

  // ---------------------------------------------------------------- a run of revocations

  function Revocations(caps: seq<Slot>): seq<Op> {
    if caps == [] then [] else [OpRevoke(caps[0])] + Revocations(caps[1..])
  }

  lemma {:induction false} RunRevocations(s: State, caps: seq<Slot>, more: seq<Slot>)
    ensures LegalRun(s, Revocations(caps)) && LegalRun(s, Revocations(caps + more))
    ensures LegalRun(Run(s, Revocations(caps)), Revocations(more))
    ensures Run(s, Revocations(caps + more)) == Run(Run(s, Revocations(caps)), Revocations(more))
    decreases |caps|
  {
    hide Step;
    if caps == [] {
      assert caps + more == more;
      AlwaysLegal(s, more);
    } else {
      var op := OpRevoke(caps[0]);
      assert (caps + more)[1..] == caps[1..] + more;
      RunRevocations(Step(s, op).s, caps[1..], more);
      RunCons(s, op, Revocations(caps[1..]));
      RunCons(s, op, Revocations(caps[1..] + more));
    }
  }

  lemma {:induction false} AlwaysLegal(s: State, caps: seq<Slot>)
    ensures LegalRun(s, Revocations(caps))
    decreases |caps|
  {
    hide Step;
    if caps != [] {
      AlwaysLegal(Step(s, OpRevoke(caps[0])).s, caps[1..]);
      RunCons(s, OpRevoke(caps[0]), Revocations(caps[1..]));
    }
  }

  /** The capability state after a purge is that after a run of `cap_revoke`, one per plain slot. */
  ghost predicate IsRun(w: World, p: Purge) {
    LegalRun(w.s, Revocations(p.revoked)) && p.w.s == Run(w.s, Revocations(p.revoked))
  }

  lemma RunThenRun(w: World, p: Purge, v: World, q: Purge)
    requires IsRun(w, p) && v.s == p.w.s && IsRun(v, q)
    ensures IsRun(w, Purge(q.w, p.revoked + q.revoked))
  {
    hide LegalRun, Run;
    RunRevocations(w.s, p.revoked, q.revoked);
  }

  lemma PlainIsRun(w: World, cap: Slot)
    ensures IsRun(w, RevokePlain(w, cap))
  {
    hide Revoke;
    assert Revocations([cap]) == [OpRevoke(cap)];
    RunCons(w.s, OpRevoke(cap), []);
  }

  lemma {:induction false} RevokeNodeIsRun(w: World, cap: CapId, depth: nat)
    ensures IsRun(w, RevokeNode(w, cap, depth))
    decreases CNODE_MAX_DEPTH + 1 - depth, 1, 0
  {
    hide NodeOf;
    if depth <= CNODE_MAX_DEPTH && NodeOf(w.Space(), cap).Some? {
      hide IsRun;
      RevokeSlotsIsRun(w, NodeOf(w.Space(), cap).value, 0, depth);
    }
  }

  lemma {:induction false} RevokeSlotsIsRun(w: World, n: nat, i: nat, depth: nat)
    requires n < |w.nodes| && depth <= CNODE_MAX_DEPTH
    ensures IsRun(w, RevokeSlots(w, n, i, depth))
    decreases CNODE_MAX_DEPTH + 1 - depth, 0, |w.nodes[n].slots| - i
  {
    if i < |w.nodes[n].slots| {
      hide IsRun, RevokePlain;
      var slot := w.nodes[n].slots[i];
      if !slot.valid {
        RevokeSlotsIsRun(w, n, i + 1, depth);
      } else {
        var p := if slot.nested then RevokeNode(w, slot.cap, depth + 1) else RevokePlain(w, slot.cap);
        if slot.nested { RevokeNodeIsRun(w, slot.cap, depth + 1); } else { PlainIsRun(w, slot.cap); }
        var v := Vacate(p.w, n, i);
        RevokeSlotsIsRun(v, n, i + 1, depth);
        RunThenRun(w, p, v, RevokeSlots(v, n, i + 1, depth));
      }
    }
  }

  /** `cnode_revoke_subtree` on any graph of nodes, shared and cyclic ones included: every slot of
      the node called on is empty, its plain capabilities are gone, no slot anywhere became valid,
      and the capability state is the one a run of `cap_revoke` leads to. */
  lemma SubtreeRevoked(w: World, cap: CapId)
    requires Lineage.Tidy(w.s.g)
    ensures var v := RevokeNode(w, cap, 0).w;
            && SameShape(w.nodes, v.nodes)
            && (forall m, i :: 0 <= m < |w.nodes| && 0 <= i < |w.nodes[m].slots| && v.nodes[m].slots[i].valid ==>
                                 v.nodes[m].slots[i] == w.nodes[m].slots[i])
            && (forall m, i :: 0 <= m < |w.nodes| && 0 <= i < |w.nodes[m].slots| ==>
                  var before, after := w.nodes[m].slots[i], v.nodes[m].slots[i];
                  after == before || after == NodeSlot(HIC_CAP_INVALID, before.mask, false, false))
            && (NodeOf(w.Space(), cap).Some? ==>
                  forall i :: 0 <= i < |w.nodes[NodeOf(w.Space(), cap).value].slots| ==>
                    var n := NodeOf(w.Space(), cap).value;
                    var before, after := w.nodes[n].slots[i], v.nodes[n].slots[i];
                    !after.valid && (before.valid && !before.nested ==> !Live(v.s.g, before.cap)))
            && IsRun(w, RevokeNode(w, cap, 0))
  {
    hide NodeOf, Live, RevokeSlots, IsRun, Lineage.Tidy;
    RevokeNodePurges(w, cap, 0);
    RevokeNodeIsRun(w, cap, 0);
    if NodeOf(w.Space(), cap).Some? {
      RevokeSlotsPurges(w, NodeOf(w.Space(), cap).value, 0, 0);
    }
  }

  lemma {:induction false} RevocationsUntangled(s: State, caps: seq<Slot>)
    ensures Forest.Untangled(s, Revocations(caps))
    decreases |caps|
  {
    hide Step;
    if caps != [] {
      assert Revocations(caps)[1..] == Revocations(caps[1..]);
      RevocationsUntangled(Step(s, OpRevoke(caps[0])).s, caps[1..]);
    }
  }

  /** So what every run keeps, a purge keeps: the links stay a forest with shrinking rights. */
  lemma PurgeKeepsForest(w: World, cap: CapId)
    requires Forest.Grounded(w.s.g) && Forest.IsForest(w.s.g) && Forest.Shrinking(w.s.g)
    ensures var g := RevokeNode(w, cap, 0).w.s.g; Forest.Grounded(g) && Forest.IsForest(g) && Forest.Shrinking(g)
  {
    hide Forest.Grounded, Forest.IsForest, Forest.Shrinking, Forest.Untangled, RevokeNode, LegalRun, Run;
    var p := RevokeNode(w, cap, 0);
    RevokeNodeIsRun(w, cap, 0);
    RevocationsUntangled(w.s, p.revoked);
    Forest.RunForest(w.s, Revocations(p.revoked));
  }
}
