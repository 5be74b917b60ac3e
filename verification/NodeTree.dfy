/** What `cnode_revoke_subtree` does to a tree of CNodes: everything down to the depth limit is
    emptied, unless a revocation on the way takes a nested CNode's capability first, and nothing
    else is touched. */
module NodeTree {
  import opened Capability
  import opened Operations
  import opened CSpace
  import opened NodeRevoke
  import opened Revocation
  import Subtree
  import Lineage
  import Forest
  import History

  /** A slot that leads into another node. */
  predicate Nests(w: World, n: nat, i: nat) {
    n < |w.nodes| && i < |w.nodes[n].slots| && w.nodes[n].slots[i].valid && w.nodes[n].slots[i].nested
  }

  /** The node `cap` names. */
  function NodeAt(w: World, cap: CapId): Option<nat> {
    NodeOf(w.Space(), cap)
  }

  /** Node `m` is `cap`'s or lies below it, within the levels the recursion visits from `depth` on. */
  ghost predicate Reaches(w: World, cap: CapId, depth: nat, m: nat)
    decreases CNODE_MAX_DEPTH + 1 - depth, 1
  {
    && depth <= CNODE_MAX_DEPTH && NodeAt(w, cap).Some?
    && (m == NodeAt(w, cap).value || exists i: nat :: Via(w, NodeAt(w, cap).value, i, depth, m))
  }

  /** It lies below slot `i` of node `n`. */
  ghost predicate Via(w: World, n: nat, i: nat, depth: nat, m: nat)
    requires depth <= CNODE_MAX_DEPTH
    decreases CNODE_MAX_DEPTH + 1 - depth, 0
  {
    Nests(w, n, i) && Reaches(w, w.nodes[n].slots[i].cap, depth + 1, m)
  }

  /** Below `cap` no node is reached twice. */
  ghost predicate IsTree(w: World, cap: CapId, depth: nat)
    decreases CNODE_MAX_DEPTH + 1 - depth, 1
  {
    depth <= CNODE_MAX_DEPTH && NodeAt(w, cap).Some? ==> Branches(w, NodeAt(w, cap).value, depth)
  }

  /** The slots of node `n`, as a tree asks of them. */
  ghost predicate Branches(w: World, n: nat, depth: nat)
    requires depth <= CNODE_MAX_DEPTH
    decreases CNODE_MAX_DEPTH + 1 - depth, 0
  {
    && (forall i: nat :: Nests(w, n, i) ==> IsTree(w, w.nodes[n].slots[i].cap, depth + 1))
    && (forall i: nat :: !Via(w, n, i, depth, n))
    && (forall i: nat, j: nat, m: nat :: i != j ==> !(Via(w, n, i, depth, m) && Via(w, n, j, depth, m)))
  }

  /** The capabilities of the nodes nested below `cap` name the same nodes in `v`. */
  ghost predicate Lasting(w: World, v: World, cap: CapId, depth: nat)
    decreases CNODE_MAX_DEPTH + 1 - depth
  {
    depth <= CNODE_MAX_DEPTH && NodeAt(w, cap).Some? ==>
      var n := NodeAt(w, cap).value;
      forall i: nat :: Nests(w, n, i) ==>
        var c := w.nodes[n].slots[i].cap; NodeAt(v, c) == NodeAt(w, c) && Lasting(w, v, c, depth + 1)
  }

  // ---------------------------------------------------------------- less and less

  ghost predicate Fainter(g: Graph, h: Graph) {
    forall c :: 0 <= c < CAP_TABLE_SIZE ==> h.table[c] == g.table[c] || h.table[c] == Cleared(g.table[c])
  }

  ghost predicate FewerLinks(g: Graph, h: Graph) {
    forall p: CapId, c: CapId :: Listed(h, p, c) ==> Listed(g, p, c)
  }

  /** Slots became vacant, capabilities were cleared and child lists lost entries; nothing else
      happened. */
  ghost predicate Less(w: World, v: World) {
    Thinned(w.nodes, v.nodes) && Fainter(w.s.g, v.s.g) && FewerLinks(w.s.g, v.s.g)
  }

  lemma LessSelf(w: World)
    ensures Less(w, w)
  {
  }

  lemma LessTrans(u: World, v: World, w: World)
    requires Less(u, v) && Less(v, w)
    ensures Less(u, w)
  {
  }

  lemma VacateLess(w: World, n: nat, i: nat)
    requires n < |w.nodes| && i < |w.nodes[n].slots|
    ensures Less(w, Vacate(w, n, i))
  {
  }

  lemma PlainLess(w: World, cap: Slot)
    ensures Less(w, RevokePlain(w, cap).w)
  {
    hide RevokeFrom, ReleaseAll;
    if cap != 0 {
      RevokeFromSweeps(w.s.g, cap, 0);
      History.RevokeFromShrinks(w.s.g, cap, 0);
    }
  }

  lemma {:induction false} NodeLess(w: World, cap: CapId, depth: nat)
    ensures Less(w, RevokeNode(w, cap, depth).w)
    decreases CNODE_MAX_DEPTH + 1 - depth, 1, 0
  {
    hide Less, NodeOf, RevokeSlots;
    LessSelf(w);
    if depth <= CNODE_MAX_DEPTH && NodeOf(w.Space(), cap).Some? { SlotsLess(w, NodeOf(w.Space(), cap).value, 0, depth); }
  }

  /** One turn of the slot loop on a valid slot. */
  function SlotDone(w: World, n: nat, i: nat, depth: nat): (v: World)
    requires n < |w.nodes| && i < |w.nodes[n].slots| && depth <= CNODE_MAX_DEPTH
    ensures SameShape(w.nodes, v.nodes)
  {
    var slot := w.nodes[n].slots[i];
    var p := if slot.nested then RevokeNode(w, slot.cap, depth + 1) else RevokePlain(w, slot.cap);
    Vacate(p.w, n, i)
  }

  lemma {:induction false} SlotsLess(w: World, n: nat, i: nat, depth: nat)
    requires n < |w.nodes| && depth <= CNODE_MAX_DEPTH
    ensures Less(w, RevokeSlots(w, n, i, depth).w)
    decreases CNODE_MAX_DEPTH + 1 - depth, 0, |w.nodes[n].slots| - i
  {
    hide Less, RevokeNode, RevokePlain;
    if i >= |w.nodes[n].slots| {
      LessSelf(w);
    } else if !w.nodes[n].slots[i].valid {
      SlotsLess(w, n, i + 1, depth);
    } else {
      SlotLess(w, n, i, depth);
      var v := SlotDone(w, n, i, depth);
      SlotsLess(v, n, i + 1, depth);
      LessTrans(w, v, RevokeSlots(v, n, i + 1, depth).w);
    }
  }

  lemma {:induction false} SlotLess(w: World, n: nat, i: nat, depth: nat)
    requires n < |w.nodes| && i < |w.nodes[n].slots| && depth <= CNODE_MAX_DEPTH
    ensures Less(w, SlotDone(w, n, i, depth))
    decreases CNODE_MAX_DEPTH + 1 - depth, 0, |w.nodes[n].slots| - i, 0
  {
    hide Less, RevokeNode, RevokePlain;
    var slot := w.nodes[n].slots[i];
    var p := if slot.nested then RevokeNode(w, slot.cap, depth + 1) else RevokePlain(w, slot.cap);
    if slot.nested { NodeLess(w, slot.cap, depth + 1); } else { PlainLess(w, slot.cap); PlainShape(w, slot.cap); }
    VacateLess(p.w, n, i);
    LessTrans(w, p.w, Vacate(p.w, n, i));
  }

  lemma PlainShape(w: World, cap: Slot)
    ensures RevokePlain(w, cap).w.nodes == w.nodes
  {
  }

  /** A node still named is the one named before; a slot still nested is the one it was. */
  lemma LessNode(w: World, v: World, cap: CapId)
    requires Less(w, v) && NodeAt(v, cap).Some?
    ensures NodeAt(w, cap) == NodeAt(v, cap)
  {
    ClearedHasNone();
  }

  lemma ClearedHasNone()
    ensures !HasNodeRight(0)
  {
  }

  lemma LessNests(w: World, v: World, n: nat, i: nat)
    requires Less(w, v) && Nests(v, n, i)
    ensures Nests(w, n, i) && v.nodes[n].slots[i] == w.nodes[n].slots[i]
  {
  }

  lemma {:induction false} LessReaches(w: World, v: World, cap: CapId, depth: nat, m: nat)
    requires Less(w, v) && Reaches(v, cap, depth, m)
    ensures Reaches(w, cap, depth, m)
    decreases CNODE_MAX_DEPTH + 1 - depth, 1
  {
    hide Less, NodeAt, Via;
    LessNode(w, v, cap);
    var n := NodeAt(v, cap).value;
    if m != n {
      var i: nat :| Via(v, n, i, depth, m);
      LessVia(w, v, n, i, depth, m);
    }
  }

  lemma {:induction false} LessVia(w: World, v: World, n: nat, i: nat, depth: nat, m: nat)
    requires Less(w, v) && depth <= CNODE_MAX_DEPTH && Via(v, n, i, depth, m)
    ensures Via(w, n, i, depth, m)
    decreases CNODE_MAX_DEPTH + 1 - depth, 0
  {
    hide Less;
    LessNests(w, v, n, i);
    LessReaches(w, v, v.nodes[n].slots[i].cap, depth + 1, m);
  }

  lemma {:induction false} LessTree(w: World, v: World, cap: CapId, depth: nat)
    requires Less(w, v) && IsTree(w, cap, depth)
    ensures IsTree(v, cap, depth)
    decreases CNODE_MAX_DEPTH + 1 - depth, 1
  {
    hide Less, NodeAt, Branches;
    if depth <= CNODE_MAX_DEPTH && NodeAt(v, cap).Some? {
      LessNode(w, v, cap);
      BranchesLess(w, v, NodeAt(v, cap).value, depth);
    }
  }

  lemma {:induction false} BranchesLess(w: World, v: World, n: nat, depth: nat)
    requires Less(w, v) && depth <= CNODE_MAX_DEPTH && Branches(w, n, depth)
    ensures Branches(v, n, depth)
    decreases CNODE_MAX_DEPTH + 1 - depth, 0
  {
    hide Less, Via, IsTree;
    forall i: nat | Nests(v, n, i)
      ensures IsTree(v, v.nodes[n].slots[i].cap, depth + 1)
    {
      LessNests(w, v, n, i);
      LessTree(w, v, w.nodes[n].slots[i].cap, depth + 1);
    }
    forall i: nat, m: nat | Via(v, n, i, depth, m)
      ensures Via(w, n, i, depth, m)
    {
      LessVia(w, v, n, i, depth, m);
    }
  }

  // ---------------------------------------------------------------- nothing else is touched

  /** A node that is not reached is left as it is. */
  lemma {:induction false} NodeFrame(w: World, cap: CapId, depth: nat, m: nat)
    requires m < |w.nodes| && !Reaches(w, cap, depth, m)
    ensures RevokeNode(w, cap, depth).w.nodes[m] == w.nodes[m]
    decreases CNODE_MAX_DEPTH + 1 - depth, 1, 0
  {
    hide NodeOf, RevokeSlots, Via;
    if depth <= CNODE_MAX_DEPTH && NodeOf(w.Space(), cap).Some? {
      SlotsFrame(w, NodeOf(w.Space(), cap).value, 0, depth, m);
    }
  }

  lemma {:induction false} SlotsFrame(w: World, n: nat, i: nat, depth: nat, m: nat)
    requires n < |w.nodes| && m < |w.nodes| && m != n && depth <= CNODE_MAX_DEPTH
    requires forall j: nat :: !Via(w, n, j, depth, m)
    ensures RevokeSlots(w, n, i, depth).w.nodes[m] == w.nodes[m]
    decreases CNODE_MAX_DEPTH + 1 - depth, 0, |w.nodes[n].slots| - i, 1
  {
    hide Via, RevokeNode, RevokePlain;
    if i < |w.nodes[n].slots| {
      if !w.nodes[n].slots[i].valid {
        SlotsFrame(w, n, i + 1, depth, m);
      } else {
        var v := SlotDone(w, n, i, depth);
        SlotFrame(w, n, i, depth, m);
        SlotLess(w, n, i, depth);
        forall j: nat
          ensures !Via(v, n, j, depth, m)
        {
          if Via(v, n, j, depth, m) { LessVia(w, v, n, j, depth, m); }
        }
        SlotsFrame(v, n, i + 1, depth, m);
      }
    }
  }

  lemma {:induction false} SlotFrame(w: World, n: nat, i: nat, depth: nat, m: nat)
    requires n < |w.nodes| && i < |w.nodes[n].slots| && m < |w.nodes| && m != n && depth <= CNODE_MAX_DEPTH
    requires w.nodes[n].slots[i].valid && !Via(w, n, i, depth, m)
    ensures SlotDone(w, n, i, depth).nodes[m] == w.nodes[m]
    decreases CNODE_MAX_DEPTH + 1 - depth, 0, |w.nodes[n].slots| - i, 0
  {
    hide RevokeNode, Reaches;
    var slot := w.nodes[n].slots[i];
    if slot.nested { NodeFrame(w, slot.cap, depth + 1, m); } else { PlainShape(w, slot.cap); }
  }

  // ---------------------------------------------------------------- everything reached is emptied

  ghost predicate Empty(w: World, m: nat) {
    m < |w.nodes| && forall k :: 0 <= k < |w.nodes[m].slots| ==> !w.nodes[m].slots[k].valid
  }

  lemma EmptyStays(w: World, v: World, m: nat)
    requires Less(w, v) && Empty(w, m)
    ensures Empty(v, m)
  {
  }

  /** What is named at the end was named all the while. */
  lemma NamedSooner(w: World, v: World, u: World, cap: CapId)
    requires Less(w, v) && Less(v, u) && NodeAt(u, cap) == NodeAt(w, cap)
    ensures NodeAt(v, cap) == NodeAt(w, cap)
  {
    hide Less, NodeAt;
    if NodeAt(u, cap).Some? { LessNode(v, u, cap); }
    if NodeAt(v, cap).Some? { LessNode(w, v, cap); }
  }

  lemma {:induction false} LastingSooner(w: World, v: World, u: World, cap: CapId, depth: nat)
    requires Less(w, v) && Less(v, u) && Lasting(w, u, cap, depth)
    ensures Lasting(w, v, cap, depth)
    decreases CNODE_MAX_DEPTH + 1 - depth
  {
    hide Less, NodeAt;
    if depth <= CNODE_MAX_DEPTH && NodeAt(w, cap).Some? {
      var n := NodeAt(w, cap).value;
      forall i: nat | Nests(w, n, i)
        ensures var c := w.nodes[n].slots[i].cap; NodeAt(v, c) == NodeAt(w, c) && Lasting(w, v, c, depth + 1)
      {
        NamedSooner(w, v, u, w.nodes[n].slots[i].cap);
        LastingSooner(w, v, u, w.nodes[n].slots[i].cap, depth + 1);
      }
    }
  }

  lemma {:induction false} LastingLater(w: World, v: World, u: World, cap: CapId, depth: nat)
    requires Less(w, v) && Less(v, u) && Lasting(w, u, cap, depth)
    ensures Lasting(v, u, cap, depth)
    decreases CNODE_MAX_DEPTH + 1 - depth
  {
    hide Less, NodeAt;
    if depth <= CNODE_MAX_DEPTH && NodeAt(v, cap).Some? {
      LessNode(w, v, cap);
      var n := NodeAt(v, cap).value;
      forall i: nat | Nests(v, n, i)
        ensures var c := v.nodes[n].slots[i].cap; NodeAt(u, c) == NodeAt(v, c) && Lasting(v, u, c, depth + 1)
      {
        LessNests(w, v, n, i);
        NamedSooner(w, v, u, w.nodes[n].slots[i].cap);
        LastingLater(w, v, u, w.nodes[n].slots[i].cap, depth + 1);
      }
    }
  }

  /** Where nothing changed, what was reached still is. */
  lemma {:induction false} ReachesStill(w: World, v: World, cap: CapId, depth: nat, m: nat)
    requires SameShape(w.nodes, v.nodes) && Reaches(w, cap, depth, m)
    requires NodeAt(v, cap) == NodeAt(w, cap) && Lasting(w, v, cap, depth)
    requires forall k: nat :: Reaches(w, cap, depth, k) && k < |w.nodes| ==> v.nodes[k] == w.nodes[k]
    ensures Reaches(v, cap, depth, m)
    decreases CNODE_MAX_DEPTH + 1 - depth
  {
    var n := NodeAt(w, cap).value;
    assert Reaches(w, cap, depth, n) && v.nodes[n] == w.nodes[n];
    if m != n {
      var i: nat :| Via(w, n, i, depth, m);
      var c := w.nodes[n].slots[i].cap;
      forall k: nat | Reaches(w, c, depth + 1, k) && k < |w.nodes|
        ensures v.nodes[k] == w.nodes[k]
      {
        assert Via(w, n, i, depth, k);
        assert Reaches(w, cap, depth, k);
      }
      ReachesStill(w, v, c, depth + 1, m);
      assert Via(v, n, i, depth, m);
    }
  }

  lemma SlotVacant(w: World, n: nat, i: nat, depth: nat)
    requires n < |w.nodes| && i < |w.nodes[n].slots| && depth <= CNODE_MAX_DEPTH
    ensures !SlotDone(w, n, i, depth).nodes[n].slots[i].valid
  {
    hide RevokeNode;
  }

  /** The loop leaves its own node empty from slot `i` on. */
  lemma {:induction false} SelfEmpties(w: World, n: nat, i: nat, depth: nat)
    requires n < |w.nodes| && depth <= CNODE_MAX_DEPTH
    ensures var u := RevokeSlots(w, n, i, depth).w;
            forall j :: i <= j < |w.nodes[n].slots| ==> !u.nodes[n].slots[j].valid
    decreases |w.nodes[n].slots| - i
  {
    hide RevokeNode, RevokePlain, Fainter;
    if i < |w.nodes[n].slots| {
      var v := if w.nodes[n].slots[i].valid then SlotDone(w, n, i, depth) else w;
      if w.nodes[n].slots[i].valid { SlotVacant(w, n, i, depth); }
      SelfEmpties(v, n, i + 1, depth);
      SlotsLess(v, n, i + 1, depth);
      var u := RevokeSlots(v, n, i + 1, depth).w;
      assert RevokeSlots(w, n, i, depth).w == u;
      assert !u.nodes[n].slots[i].valid;
    }
  }

  /** The capabilities nested below node `n` still name their nodes in `u`. */
  ghost predicate BranchesLast(w: World, u: World, n: nat, depth: nat)
    requires depth <= CNODE_MAX_DEPTH
  {
    forall i: nat :: Nests(w, n, i) ==>
      NodeAt(u, w.nodes[n].slots[i].cap) == NodeAt(w, w.nodes[n].slots[i].cap)
      && Lasting(w, u, w.nodes[n].slots[i].cap, depth + 1)
  }

  lemma BranchesLater(w: World, v: World, u: World, n: nat, depth: nat)
    requires Less(w, v) && Less(v, u) && depth <= CNODE_MAX_DEPTH && BranchesLast(w, u, n, depth)
    ensures BranchesLast(v, u, n, depth)
  {
    hide Less, NodeAt, Lasting;
    forall i: nat | Nests(v, n, i)
      ensures NodeAt(u, v.nodes[n].slots[i].cap) == NodeAt(v, v.nodes[n].slots[i].cap)
      ensures Lasting(v, u, v.nodes[n].slots[i].cap, depth + 1)
    {
      LessNests(w, v, n, i);
      NamedSooner(w, v, u, w.nodes[n].slots[i].cap);
      LastingLater(w, v, u, w.nodes[n].slots[i].cap, depth + 1);
    }
  }

  lemma OwnEmpties(w: World, cap: CapId, depth: nat)
    requires depth <= CNODE_MAX_DEPTH && NodeAt(w, cap).Some?
    ensures Empty(RevokeNode(w, cap, depth).w, NodeAt(w, cap).value)
  {
    hide NodeOf, RevokeSlots;
    var n := NodeAt(w, cap).value;
    var v := RevokeNode(w, cap, depth).w;
    assert v == RevokeSlots(w, n, 0, depth).w;
    SelfEmpties(w, n, 0, depth);
    assert |v.nodes| == |w.nodes| && |v.nodes[n].slots| == |w.nodes[n].slots|;
  }

  lemma {:induction false} NodeEmpties(w: World, cap: CapId, depth: nat, m: nat)
    requires IsTree(w, cap, depth) && Lasting(w, RevokeNode(w, cap, depth).w, cap, depth) && Reaches(w, cap, depth, m)
    ensures Empty(RevokeNode(w, cap, depth).w, m)
    decreases CNODE_MAX_DEPTH + 1 - depth, 1, 0
  {
    hide NodeOf, RevokeSlots, Via;
    var n := NodeAt(w, cap).value;
    assert RevokeNode(w, cap, depth).w == RevokeSlots(w, n, 0, depth).w;
    if m == n {
      OwnEmpties(w, cap, depth);
    } else {
      var j: nat :| Via(w, n, j, depth, m);
      SlotsEmpty(w, n, 0, depth, j, m);
    }
  }

  lemma {:induction false} SlotsEmpty(w: World, n: nat, i: nat, depth: nat, j: nat, m: nat)
    requires n < |w.nodes| && depth <= CNODE_MAX_DEPTH && Branches(w, n, depth)
    requires BranchesLast(w, RevokeSlots(w, n, i, depth).w, n, depth)
    requires i <= j && Via(w, n, j, depth, m)
    ensures Empty(RevokeSlots(w, n, i, depth).w, m)
    decreases CNODE_MAX_DEPTH + 1 - depth, 0, |w.nodes[n].slots| - i
  {
    hide Less, Empty, Branches, BranchesLast, RevokeNode, RevokePlain, Reaches;
    if !w.nodes[n].slots[i].valid {
      SlotsEmpty(w, n, i + 1, depth, j, m);
    } else {
      var v := SlotDone(w, n, i, depth);
      var u := RevokeSlots(v, n, i + 1, depth).w;
      SlotLess(w, n, i, depth);
      SlotsLess(v, n, i + 1, depth);
      if j == i {
        SlotEmpties(w, n, i, depth, u, m);
        EmptyStays(v, u, m);
      } else {
        BranchesLess(w, v, n, depth);
        BranchesLater(w, v, u, n, depth);
        ViaStill(w, v, u, n, i, depth, j, m);
        SlotsEmpty(v, n, i + 1, depth, j, m);
      }
    }
  }

  /** Slot `i`: what lies below it is empty after its turn. */
  lemma {:induction false} SlotEmpties(w: World, n: nat, i: nat, depth: nat, u: World, m: nat)
    requires n < |w.nodes| && depth <= CNODE_MAX_DEPTH && Branches(w, n, depth) && Via(w, n, i, depth, m)
    requires Less(SlotDone(w, n, i, depth), u) && BranchesLast(w, u, n, depth)
    ensures Empty(SlotDone(w, n, i, depth), m)
    decreases CNODE_MAX_DEPTH + 1 - depth, 0, 0
  {
    hide Less, Empty, RevokeNode, Reaches, Lasting, IsTree;
    var c := w.nodes[n].slots[i].cap;
    var p := RevokeNode(w, c, depth + 1).w;
    var v := SlotDone(w, n, i, depth);
    NodeLess(w, c, depth + 1);
    VacateLess(p, n, i);
    LessTrans(p, v, u);
    LastingSooner(w, p, u, c, depth + 1);
    NodeEmpties(w, c, depth + 1, m);
    EmptyStays(p, v, m);
  }

  /** What lies below a later slot is not affected by the turn of slot `i`. */
  lemma ViaStill(w: World, v: World, u: World, n: nat, i: nat, depth: nat, j: nat, m: nat)
    requires n < |w.nodes| && depth <= CNODE_MAX_DEPTH && Branches(w, n, depth) && BranchesLast(w, u, n, depth)
    requires i < j && i < |w.nodes[n].slots| && w.nodes[n].slots[i].valid && Via(w, n, j, depth, m)
    requires v == SlotDone(w, n, i, depth) && Less(w, v) && Less(v, u)
    ensures Via(v, n, j, depth, m)
  {
    hide Less, Reaches, Lasting, IsTree, RevokeNode, RevokePlain, NodeAt;
    var c := w.nodes[n].slots[j].cap;
    OwnSlotsStill(w, n, i, depth, j);
    NamedSooner(w, v, u, c);
    LastingSooner(w, v, u, c, depth + 1);
    forall k: nat | Reaches(w, c, depth + 1, k) && k < |w.nodes|
      ensures v.nodes[k] == w.nodes[k]
    {
      assert Via(w, n, j, depth, k);
      SlotFrame(w, n, i, depth, k);
    }
    ReachesStill(w, v, c, depth + 1, m);
  }

  lemma OwnSlotsStill(w: World, n: nat, i: nat, depth: nat, j: nat)
    requires n < |w.nodes| && depth <= CNODE_MAX_DEPTH && i < |w.nodes[n].slots| && w.nodes[n].slots[i].valid
    requires !Via(w, n, i, depth, n) && i != j && j < |w.nodes[n].slots|
    ensures SlotDone(w, n, i, depth).nodes[n].slots[j] == w.nodes[n].slots[j]
  {
    hide Reaches, RevokeNode;
    var slot := w.nodes[n].slots[i];
    if slot.nested { NodeFrame(w, slot.cap, depth + 1, n); } else { PlainShape(w, slot.cap); }
  }

  /** On a tree of CNodes whose nested capabilities last, every slot of every node within seventeen
      levels is empty afterwards, and every other node is exactly as it was. */
  lemma LastingEmptied(w: World, cap: CapId, m: nat)
    requires IsTree(w, cap, 0) && Lasting(w, RevokeNode(w, cap, 0).w, cap, 0) && m < |w.nodes|
    ensures var v := RevokeNode(w, cap, 0).w;
            && (Reaches(w, cap, 0, m) ==> Empty(v, m))
            && (!Reaches(w, cap, 0, m) ==> v.nodes[m] == w.nodes[m])
  {
    hide IsTree, Lasting, Reaches, RevokeNode;
    if Reaches(w, cap, 0, m) { NodeEmpties(w, cap, 0, m); } else { NodeFrame(w, cap, 0, m); }
  }

  // ---------------------------------------------------------------- what can be lost

  /** Slot `i` of node `m` holds a plain capability that `x` is or is recorded below. */
  ghost predicate Holds(w: World, m: nat, i: nat, x: CapId) {
    && m < |w.nodes| && i < |w.nodes[m].slots| && w.nodes[m].slots[i].valid && !w.nodes[m].slots[i].nested
    && Subtree.Below(w.s.g, w.nodes[m].slots[i].cap, x)
  }

  /** Some node within reach holds such a capability. */
  ghost predicate AtStake(w: World, cap: CapId, depth: nat, x: CapId) {
    exists m: nat, i: nat :: Reaches(w, cap, depth, m) && Holds(w, m, i, x)
  }

  /** The same, from slot `i` of node `n` on down. */
  ghost predicate AtStakeVia(w: World, n: nat, i: nat, depth: nat, x: CapId)
    requires depth <= CNODE_MAX_DEPTH
  {
    Holds(w, n, i, x) || (Nests(w, n, i) && AtStake(w, w.nodes[n].slots[i].cap, depth + 1, x))
  }

  lemma LessHolds(w: World, v: World, m: nat, i: nat, x: CapId)
    requires Less(w, v) && Holds(v, m, i, x)
    ensures Holds(w, m, i, x)
  {
    hide Subtree.Below, Listed;
    History.BelowMore(v.s.g, w.s.g, v.nodes[m].slots[i].cap, x);
  }

  lemma LessAtStakeVia(w: World, v: World, n: nat, i: nat, depth: nat, x: CapId)
    requires Less(w, v) && depth <= CNODE_MAX_DEPTH && AtStakeVia(v, n, i, depth, x)
    ensures AtStakeVia(w, n, i, depth, x)
  {
    hide Less, Holds, Reaches;
    if Holds(v, n, i, x) {
      LessHolds(w, v, n, i, x);
    } else {
      LessNests(w, v, n, i);
      var c := v.nodes[n].slots[i].cap;
      var m: nat, j: nat :| Reaches(v, c, depth + 1, m) && Holds(v, m, j, x);
      LessReaches(w, v, c, depth + 1, m);
      LessHolds(w, v, m, j, x);
    }
  }

  /** On any graph, a capability that is lost was at stake. */
  lemma {:induction false} LostAtStake(w: World, cap: CapId, depth: nat, x: CapId)
    requires x < CAP_TABLE_SIZE && RevokeNode(w, cap, depth).w.s.g.table[x] != w.s.g.table[x]
    ensures AtStake(w, cap, depth, x)
    decreases CNODE_MAX_DEPTH + 1 - depth, 1, 0
  {
    hide NodeOf, RevokeSlots, Via, Holds;
    var n := NodeAt(w, cap).value;
    var i := LostFromSlots(w, n, 0, depth, x);
    if Holds(w, n, i, x) {
      assert Reaches(w, cap, depth, n);
    } else {
      var c := w.nodes[n].slots[i].cap;
      var m: nat, j: nat :| Reaches(w, c, depth + 1, m) && Holds(w, m, j, x);
      ReachesVia(w, cap, depth, i, m);
    }
  }

  /** What a nested node reaches, the node above it reaches. */
  lemma ReachesVia(w: World, cap: CapId, depth: nat, i: nat, m: nat)
    requires depth <= CNODE_MAX_DEPTH && NodeAt(w, cap).Some? && Nests(w, NodeAt(w, cap).value, i)
    requires Reaches(w, w.nodes[NodeAt(w, cap).value].slots[i].cap, depth + 1, m)
    ensures Reaches(w, cap, depth, m)
  {
    hide NodeAt;
    assert Via(w, NodeAt(w, cap).value, i, depth, m);
  }

  lemma {:induction false} LostFromSlots(w: World, n: nat, i: nat, depth: nat, x: CapId) returns (j: nat)
    requires n < |w.nodes| && depth <= CNODE_MAX_DEPTH && x < CAP_TABLE_SIZE
    requires RevokeSlots(w, n, i, depth).w.s.g.table[x] != w.s.g.table[x]
    ensures AtStakeVia(w, n, j, depth, x)
    decreases CNODE_MAX_DEPTH + 1 - depth, 0, |w.nodes[n].slots| - i, 1
  {
    hide RevokeNode, RevokePlain, AtStakeVia;
    if !w.nodes[n].slots[i].valid {
      j := LostFromSlots(w, n, i + 1, depth, x);
    } else {
      var v := SlotDone(w, n, i, depth);
      if v.s.g.table[x] != w.s.g.table[x] {
        LostFromSlot(w, n, i, depth, x);
        j := i;
      } else {
        j := LostFromSlots(v, n, i + 1, depth, x);
        SlotLess(w, n, i, depth);
        LessAtStakeVia(w, v, n, j, depth, x);
      }
    }
  }

  lemma {:induction false} LostFromSlot(w: World, n: nat, i: nat, depth: nat, x: CapId)
    requires n < |w.nodes| && i < |w.nodes[n].slots| && depth <= CNODE_MAX_DEPTH && w.nodes[n].slots[i].valid
    requires x < CAP_TABLE_SIZE && SlotDone(w, n, i, depth).s.g.table[x] != w.s.g.table[x]
    ensures AtStakeVia(w, n, i, depth, x)
    decreases CNODE_MAX_DEPTH + 1 - depth, 0, |w.nodes[n].slots| - i, 0
  {
    hide RevokeNode, RevokePlain, AtStake, Subtree.Below;
    var slot := w.nodes[n].slots[i];
    if slot.nested { LostAtStake(w, slot.cap, depth + 1, x); } else { PlainLost(w, slot.cap, x); }
  }

  lemma PlainLost(w: World, cap: Slot, x: CapId)
    requires x < CAP_TABLE_SIZE && RevokePlain(w, cap).w.s.g.table[x] != w.s.g.table[x]
    ensures Subtree.Below(w.s.g, cap, x)
  {
    hide RevokeFrom, ReleaseAll, Subtree.Below, History.Shrunk;
    RevokeFromSweeps(w.s.g, cap, 0);
    History.ShrunkSelf(w.s.g);
    History.FreedBelow(w.s.g, w.s.g, cap, 0);
  }

  /** No capability of a nested node is, or is recorded below, a plain capability held in the tree. */
  ghost predicate Unharmed(w: World, cap: CapId) {
    forall n: nat, j: nat :: Reaches(w, cap, 0, n) && Nests(w, n, j) ==> !AtStake(w, cap, 0, w.nodes[n].slots[j].cap)
  }

  lemma {:induction false} KeptIsLasting(w: World, v: World, cap: CapId, depth: nat)
    requires SameShape(w.nodes, v.nodes)
    requires forall n: nat, j: nat :: Reaches(w, cap, depth, n) && Nests(w, n, j) ==>
               v.s.g.table[w.nodes[n].slots[j].cap] == w.s.g.table[w.nodes[n].slots[j].cap]
    ensures Lasting(w, v, cap, depth)
    decreases CNODE_MAX_DEPTH + 1 - depth
  {
    hide Via;
    if depth <= CNODE_MAX_DEPTH && NodeAt(w, cap).Some? {
      var n := NodeAt(w, cap).value;
      assert Reaches(w, cap, depth, n);
      forall i: nat | Nests(w, n, i)
        ensures Lasting(w, v, w.nodes[n].slots[i].cap, depth + 1)
      {
        var c := w.nodes[n].slots[i].cap;
        forall m: nat, j: nat | Reaches(w, c, depth + 1, m) && Nests(w, m, j)
          ensures v.s.g.table[w.nodes[m].slots[j].cap] == w.s.g.table[w.nodes[m].slots[j].cap]
        {
          ReachesVia(w, cap, depth, i, m);
        }
        KeptIsLasting(w, v, c, depth + 1);
      }
    }
  }

  lemma UnharmedLasts(w: World, cap: CapId)
    requires Unharmed(w, cap)
    ensures Lasting(w, RevokeNode(w, cap, 0).w, cap, 0)
  {
    hide Reaches, AtStake, RevokeNode, Lasting;
    var v := RevokeNode(w, cap, 0).w;
    forall n: nat, j: nat | Reaches(w, cap, 0, n) && Nests(w, n, j)
      ensures v.s.g.table[w.nodes[n].slots[j].cap] == w.s.g.table[w.nodes[n].slots[j].cap]
    {
      var c := w.nodes[n].slots[j].cap;
      if v.s.g.table[c] != w.s.g.table[c] { LostAtStake(w, cap, 0, c); }
    }
    KeptIsLasting(w, v, cap, 0);
  }

  /** On a tree of CNodes in which no plain capability has a nested one recorded below it, every slot
      of every node within seventeen levels is empty afterwards, and every other node is exactly as
      it was. */
  lemma SubtreeEmptied(w: World, cap: CapId, m: nat)
    requires IsTree(w, cap, 0) && Unharmed(w, cap) && m < |w.nodes|
    ensures var v := RevokeNode(w, cap, 0).w;
            && (Reaches(w, cap, 0, m) ==> Empty(v, m))
            && (!Reaches(w, cap, 0, m) ==> v.nodes[m] == w.nodes[m])
  {
    hide IsTree, Lasting, Reaches, RevokeNode, Unharmed;
    UnharmedLasts(w, cap);
    LastingEmptied(w, cap, m);
  }

  // ---------------------------------------------------------------- a nested node left filled

  /** Capability 1 names node 0, and capability 2 node 1, which holds one plain capability.  Node 0
      has capability 2 in both its slots, in slot `at` as a nested node and in the other one as a
      plain capability, left there from an earlier holder of the number. */
  ghost predicate Twice(w: World, at: nat) {
    && Lineage.Tidy(w.s.g) && Live(w.s.g, 2) && w.s.g.links[2] == Link(0, [])
    && |w.nodes| == 2 && NodeAt(w, 1) == Some(0) && NodeAt(w, 2) == Some(1)
    && |w.nodes[0].slots| == 2 && |w.nodes[1].slots| == 1 && at < 2
    && (forall i :: 0 <= i < 2 ==> w.nodes[0].slots[i].valid && w.nodes[0].slots[i].cap == 2
                                   && (w.nodes[0].slots[i].nested <==> i == at))
    && w.nodes[1].slots[0].valid && !w.nodes[1].slots[0].nested
  }

  /** A node without nested ones is a tree by itself. */
  lemma LeafTree(w: World, cap: CapId, depth: nat, m: nat)
    requires depth <= CNODE_MAX_DEPTH && NodeAt(w, cap).Some? && forall i: nat :: !Nests(w, NodeAt(w, cap).value, i)
    ensures IsTree(w, cap, depth) && (Reaches(w, cap, depth, m) <==> m == NodeAt(w, cap).value)
  {
    hide NodeAt, Nests;
    var n := NodeAt(w, cap).value;
    assert forall i: nat, k: nat :: !Via(w, n, i, depth, k);
    hide Via;
  }

  lemma TwiceInner(w: World, at: nat, m: nat)
    requires Twice(w, at)
    ensures IsTree(w, 2, 1) && (Reaches(w, 2, 1, m) <==> m == 1)
  {
    hide Lineage.Tidy, NodeAt, IsTree, Reaches;
    LeafTree(w, 2, 1, m);
  }

  lemma TwiceVia(w: World, at: nat, i: nat, m: nat)
    requires Twice(w, at)
    ensures Via(w, 0, i, 0, m) <==> i == at && m == 1
  {
    TwiceInner(w, at, m);
    hide Lineage.Tidy, NodeAt, Reaches;
  }

  lemma TwiceIsTree(w: World, at: nat)
    requires Twice(w, at)
    ensures IsTree(w, 1, 0) && Reaches(w, 1, 0, 1)
  {
    hide Lineage.Tidy, NodeAt, Via;
    TwiceInner(w, at, 1);
    forall i: nat, m: nat
      ensures Via(w, 0, i, 0, m) <==> i == at && m == 1
    {
      TwiceVia(w, at, i, m);
    }
    assert Via(w, 0, at, 0, 1);
  }

  /** With the plain slot first, capability 2 is revoked before its node is visited, which then stays
      as it was; with the nested slot first the node is emptied. */
  lemma OrderDecides(w: World, at: nat)
    requires Twice(w, at)
    ensures IsTree(w, 1, 0) && Reaches(w, 1, 0, 1)
    ensures Empty(RevokeNode(w, 1, 0).w, 1) <==> at == 0
  {
    TwiceIsTree(w, at);
    if at == 0 { NestedFirst(w); } else { PlainFirst(w); }
  }

  lemma NestedFirst(w: World)
    requires Twice(w, 0)
    ensures Empty(RevokeNode(w, 1, 0).w, 1)
  {
    hide Less, Lineage.Tidy, NodeOf, Empty;
    var v := SlotDone(w, 0, 0, 0);
    var p := RevokeNode(w, 2, 1).w;
    OwnEmpties(w, 2, 1);
    VacateLess(p, 0, 0);
    EmptyStays(p, v, 1);
    SlotsLess(v, 0, 1, 0);
    EmptyStays(v, RevokeSlots(v, 0, 1, 0).w, 1);
  }

  lemma PlainFirst(w: World)
    requires Twice(w, 1)
    ensures RevokeNode(w, 1, 0).w.nodes[1] == w.nodes[1]
  {
    hide RevokeFrom, ReleaseAll;
    var v := SlotDone(w, 0, 0, 0);
    Forest.RevokeLeaf(w.s.g, 2);
    ClearedHasNone();
    assert v.nodes[1] == w.nodes[1] && NodeAt(v, 2).None?;
    assert RevokeNode(v, 2, 1).w == v;
    assert RevokeSlots(v, 0, 1, 0).w.nodes[1] == v.nodes[1];
  }

  /** Two creations of CNode capabilities lead to such a world. */
  lemma TwiceReached(keys: seq<Key>, outer: Node, inner: Node)
    requires |keys| == HIC_DOMAIN_MAX
    requires outer.slots == [NodeSlot(2, 0, true, false), NodeSlot(2, 0, true, true)]
    requires inner.slots == [NodeSlot(3, 0, true, false)]
    ensures var s := Step(Step(Init(keys), OpCreate(1, CNodeCap(0))).s, OpCreate(1, CNodeCap(1))).s;
            var w := World(s, [outer, inner]);
            Twice(w, 1) && !Empty(RevokeNode(w, 1, 0).w, 1)
  {
    var s1 := Step(Init(keys), OpCreate(1, CNodeCap(0))).s;
    assert s1.g.table[1] == Entry(1, CAP_CNODE, 1, false, CNode(0));
    var s2 := Step(s1, OpCreate(1, CNodeCap(1))).s;
    assert s2.g.table[2] == Entry(2, CAP_CNODE, 1, false, CNode(1));
    assert HasNodeRight(CAP_CNODE);
    var w := World(s2, [outer, inner]);
    assert Twice(w, 1);
    OrderDecides(w, 1);
  }
}
