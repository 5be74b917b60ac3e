/** Capability spaces: trees of CNodes, and the walk a capability pointer takes through them.

    A CNode consumes some bits of the pointer as a guard, which must match, and some as the index of
    a slot.  The walk reads the pointer from its low end. */
module CSpace {
  import opened Bits
  import opened Capability
  import Lineage

  const CNODE_MAX_DEPTH := 16
  const CNODE_MAX_SLOT_BITS := 12
  const CNODE_MAX_GUARD_BITS := 32
  const ALL_RIGHTS: Rights := 0xFFFF_FFFF

  datatype NodeSlot = NodeSlot(cap: Slot, mask: Rights, valid: bool, nested: bool)

  datatype NodeData = NodeData(slots: seq<NodeSlot>, slotBits: nat, guard: nat, guardBits: nat)

  /** Nodes as `cnode_create` makes them: the slot count is a power of two. */
  type Node = n: NodeData |
    && n.slotBits <= CNODE_MAX_SLOT_BITS && n.guardBits <= CNODE_MAX_GUARD_BITS
    && |n.slots| == Pow2(n.slotBits)
    witness NodeData([NodeSlot(0, 0, false, false)], 0, 0, 0)

  /** The capability table and the pool of nodes that CNode capabilities point into. */
  datatype Space = Space(g: Graph, nodes: seq<Node>)

  /** The rights two masks both let through. */
  function Both(a: Rights, b: Rights): Rights {
    a & b
  }

  predicate HasNodeRight(rights: Rights) {
    rights & CAP_CNODE != 0
  }

  /** The node a capability names, if it names one. */
  function NodeOf(w: Space, cap: CapId): (n: Option<nat>)
    ensures n.Some? ==> n.value < |w.nodes|
  {
    if cap < CAP_TABLE_SIZE && HasNodeRight(w.g.table[cap].rights)
       && w.g.table[cap].res.CNode? && w.g.table[cap].res.node < |w.nodes|
    then Some(w.g.table[cap].res.node)
    else None
  }

  /** `cptr_extract_index` at level 0. */
  function ExtractIndex(cptr: nat, slotBits: nat): nat {
    BitAnd(cptr, Pow2(slotBits) - 1)
  }

  predicate GuardMatches(n: Node, cptr: nat) {
    n.guardBits > 0 ==> BitAnd(cptr, Pow2(n.guardBits) - 1) == n.guard
  }

  function PastGuard(n: Node, cptr: nat): nat {
    if n.guardBits > 0 then ShiftRight(cptr, n.guardBits) else cptr
  }

  datatype Answer = Hit(cap: Slot, rights: Rights) | Miss(why: Status)

  /** `cptr_lookup` past its cache, one level at a time. */
  function Lookup(w: Space, cap: CapId, cptr: nat, acc: Rights, level: nat): Answer
    decreases CNODE_MAX_DEPTH - level
  {
    if level >= CNODE_MAX_DEPTH then Miss(InvalidParam)
    else if NodeOf(w, cap).None? then Miss(CapInvalid)
    else
      var n := w.nodes[NodeOf(w, cap).value];
      var index := ExtractIndex(PastGuard(n, cptr), n.slotBits);
      if !GuardMatches(n, cptr) then Miss(CapInvalid)
      else if index >= |n.slots| then Miss(InvalidParam)
      else if !n.slots[index].valid then Miss(CapInvalid)
      else
        var slot, rest := n.slots[index], ShiftRight(PastGuard(n, cptr), n.slotBits);
        if slot.nested then Lookup(w, slot.cap, rest, Both(acc, slot.mask), level + 1)
        else Hit(slot.cap, Both(w.g.table[slot.cap].rights, Both(acc, slot.mask)))
  }

  datatype Place = At(node: nat, index: nat) | Nowhere(why: Status)

  /** `cptr_resolve`: the same walk to a slot, without comparing guards. */
  function Resolve(w: Space, cap: CapId, cptr: nat, level: nat): Place
    decreases CNODE_MAX_DEPTH - level
  {
    if level >= CNODE_MAX_DEPTH then Nowhere(InvalidParam)
    else if NodeOf(w, cap).None? then Nowhere(CapInvalid)
    else
      var n := w.nodes[NodeOf(w, cap).value];
      var index := ExtractIndex(PastGuard(n, cptr), n.slotBits);
      if index >= |n.slots| then Nowhere(InvalidParam)
      else if !n.slots[index].valid then Nowhere(CapInvalid)
      else
        var slot, rest := n.slots[index], ShiftRight(PastGuard(n, cptr), n.slotBits);
        if slot.nested then Resolve(w, slot.cap, rest, level + 1)
        else At(NodeOf(w, cap).value, index)
  }

  /** The bound check on the index never fails. */
  lemma IndexInRange(n: Node, cptr: nat)
    ensures ExtractIndex(cptr, n.slotBits) == cptr % |n.slots| < |n.slots|
  {
    MaskIsMod(cptr, n.slotBits);
  }

  // ---------------------------------------------------------------- the loops

  method CptrLookup(w: Space, root: CapId, pointer: nat) returns (a: Answer)
    ensures a == Lookup(w, root, pointer, ALL_RIGHTS, 0)
  {
    hide NodeOf, Pow2, ShiftRight, Pack, ExtractIndex, GuardMatches, PastGuard, Both;
    var cap: CapId, cptr: nat, acc, level := root, pointer, ALL_RIGHTS, 0;
    while level < CNODE_MAX_DEPTH
      invariant level <= CNODE_MAX_DEPTH
      invariant Lookup(w, cap, cptr, acc, level) == Lookup(w, root, pointer, ALL_RIGHTS, 0)
    {
      var at := NodeOf(w, cap);
      if at.None? { return Miss(CapInvalid); }
      var n := w.nodes[at.value];
      if !GuardMatches(n, cptr) { return Miss(CapInvalid); }
      var past := PastGuard(n, cptr);
      var index := ExtractIndex(past, n.slotBits);
      if index >= |n.slots| { return Miss(InvalidParam); }
      var slot := n.slots[index];
      if !slot.valid { return Miss(CapInvalid); }
      cap, cptr, acc := slot.cap, ShiftRight(past, n.slotBits), Both(acc, slot.mask);
      if !slot.nested { return Hit(slot.cap, Both(w.g.table[slot.cap].rights, acc)); }
      level := level + 1;
    }
    return Miss(InvalidParam);
  }

  method CptrResolve(w: Space, root: CapId, pointer: nat) returns (p: Place)
    ensures p == Resolve(w, root, pointer, 0)
  {
    hide NodeOf, Pow2, ShiftRight, Pack, ExtractIndex, GuardMatches, PastGuard, Both;
    var cap: CapId, cptr: nat, level := root, pointer, 0;
    while level < CNODE_MAX_DEPTH
      invariant level <= CNODE_MAX_DEPTH
      invariant Resolve(w, cap, cptr, level) == Resolve(w, root, pointer, 0)
    {
      var at := NodeOf(w, cap);
      if at.None? { return Nowhere(CapInvalid); }
      var n := w.nodes[at.value];
      var past := PastGuard(n, cptr);
      var index := ExtractIndex(past, n.slotBits);
      if index >= |n.slots| { return Nowhere(InvalidParam); }
      var slot := n.slots[index];
      if !slot.valid { return Nowhere(CapInvalid); }
      cap, cptr := slot.cap, ShiftRight(past, n.slotBits);
      if !slot.nested { return At(at.value, index); }
      level := level + 1;
    }
    return Nowhere(InvalidParam);
  }

  // ---------------------------------------------------------------- paths

  /** Where a path of slot indices ends: the last slot, and the rights all its masks leave. */
  datatype Target = Target(node: nat, index: nat, cap: Slot, mask: Rights)

  /** The guard fits the bits reserved for it; otherwise no pointer can pass the node. */
  predicate Passable(n: Node) {
    n.guardBits > 0 ==> n.guard < Pow2(n.guardBits)
  }

  /** One step of a path: the slot `index` of the node that `cap` names. */
  function SlotAt(w: Space, cap: CapId, index: nat): (s: Option<NodeSlot>)
    ensures s.Some? ==> NodeOf(w, cap).Some? && index < |w.nodes[NodeOf(w, cap).value].slots|
  {
    if NodeOf(w, cap).None? then None
    else
      var n := w.nodes[NodeOf(w, cap).value];
      if !Passable(n) || index >= |n.slots| || !n.slots[index].valid then None else Some(n.slots[index])
  }

  /** Follow a path of indices; nothing about pointers, bits or levels. */
  function Follow(w: Space, cap: CapId, path: seq<nat>): Option<Target>
    decreases |path|
  {
    if path == [] || SlotAt(w, cap, path[0]).None? then None
    else
      var slot := SlotAt(w, cap, path[0]).value;
      if |path| == 1 then
        if slot.nested then None else Some(Target(NodeOf(w, cap).value, path[0], slot.cap, slot.mask))
      else if !slot.nested then None
      else
        match Follow(w, slot.cap, path[1..])
        case None => None
        case Some(t) => Some(t.(mask := Both(slot.mask, t.mask)))
  }

  /** How many bits of a pointer a path takes up. */
  function Width(w: Space, cap: CapId, path: seq<nat>): nat
    decreases |path|
  {
    if path == [] || SlotAt(w, cap, path[0]).None? then 0
    else
      var n, slot := w.nodes[NodeOf(w, cap).value], SlotAt(w, cap, path[0]).value;
      n.guardBits + (n.slotBits + Width(w, slot.cap, path[1..]))
  }

  /** The pointer that spells a path: guard, index, guard, index, from the low end up. */
  function Encode(w: Space, cap: CapId, path: seq<nat>): nat
    decreases |path|
  {
    if path == [] || SlotAt(w, cap, path[0]).None? then 0
    else
      var n, slot := w.nodes[NodeOf(w, cap).value], SlotAt(w, cap, path[0]).value;
      Pack(GuardDigits(n), n.guardBits, Pack(path[0], n.slotBits, Encode(w, slot.cap, path[1..])))
  }

  /** The low bits of the pointer spell the path; what lies above them is ignored. */
  predicate Spells(w: Space, cap: CapId, path: seq<nat>, cptr: nat) {
    cptr % Pow2(Width(w, cap, path)) == Encode(w, cap, path)
  }

  lemma {:induction false} EncodeFits(w: Space, cap: CapId, path: seq<nat>)
    ensures Encode(w, cap, path) < Pow2(Width(w, cap, path))
    decreases |path|
  {
    hide Pow2, NodeOf, Pack;
    if path == [] || SlotAt(w, cap, path[0]).None? {
      assert Pow2(0) >= 1;
    } else {
      var n, slot := w.nodes[NodeOf(w, cap).value], SlotAt(w, cap, path[0]).value;
      var width, code := Width(w, slot.cap, path[1..]), Encode(w, slot.cap, path[1..]);
      EncodeFits(w, slot.cap, path[1..]);
      SpellOne(n, path[0], code, width, 0);
    }
  }

  function GuardDigits(n: Node): nat {
    if n.guardBits > 0 then n.guard else 0
  }

  lemma GuardIsDigits(n: Node, cptr: nat)
    ensures PastGuard(n, cptr) == ShiftRight(cptr, n.guardBits)
    ensures GuardMatches(n, cptr) <==> cptr % Pow2(n.guardBits) == GuardDigits(n)
  {
    hide BitAnd, Pow2;
    MaskIsMod(cptr, n.guardBits);
    if n.guardBits == 0 { OneBase(cptr); }
  }

  /** The digits one node takes from a pointer. */
  lemma SpellOne(n: Node, index: nat, code: nat, width: nat, cptr: nat)
    requires Passable(n) && index < |n.slots| && code < Pow2(width)
    ensures var whole := Pack(GuardDigits(n), n.guardBits, Pack(index, n.slotBits, code));
            && whole < Pow2(n.guardBits + (n.slotBits + width))
            && (cptr % Pow2(n.guardBits + (n.slotBits + width)) == whole
                <==> GuardMatches(n, cptr) && ExtractIndex(PastGuard(n, cptr), n.slotBits) == index
                     && ShiftRight(PastGuard(n, cptr), n.slotBits) % Pow2(width) == code)
  {
    assert GuardDigits(n) < Pow2(n.guardBits);
    hide Pow2, PastGuard, GuardMatches, ExtractIndex, GuardDigits, Passable, ShiftRight, Pack;
    GuardIsDigits(n, cptr);
    IndexInRange(n, PastGuard(n, cptr));
    PackedIff(cptr, n.guardBits, n.slotBits, width, GuardDigits(n), index, code);
  }

  // ---------------------------------------------------------------- lookup is path resolution

  /** A pointer that spells a path is led along it. */
  lemma {:induction false} SpelledIsFound(w: Space, cap: CapId, path: seq<nat>, cptr: nat, acc: Rights, level: nat)
    requires Follow(w, cap, path).Some? && Spells(w, cap, path, cptr) && level + |path| <= CNODE_MAX_DEPTH
    ensures var t := Follow(w, cap, path).value;
            Lookup(w, cap, cptr, acc, level) == Hit(t.cap, Both(w.g.table[t.cap].rights, Both(acc, t.mask)))
    decreases |path|
  {
    hide NodeOf, Pow2, ShiftRight, Pack, ExtractIndex, GuardMatches, PastGuard, Both;
    var n, slot := w.nodes[NodeOf(w, cap).value], SlotAt(w, cap, path[0]).value;
    FirstDigits(w, cap, path, cptr);
    if slot.nested {
      SpelledIsFound(w, slot.cap, path[1..], ShiftRight(PastGuard(n, cptr), n.slotBits), Both(acc, slot.mask), level + 1);
      MaskAssoc(acc, slot.mask, Follow(w, slot.cap, path[1..]).value.mask);
    }
  }

  lemma MaskAssoc(a: Rights, b: Rights, c: Rights)
    ensures Both(Both(a, b), c) == Both(a, Both(b, c))
  {
  }

  /** The path a successful walk took. */
  lemma {:induction false} FoundIsSpelled(w: Space, cap: CapId, cptr: nat, acc: Rights, level: nat) returns (path: seq<nat>)
    requires Lookup(w, cap, cptr, acc, level).Hit?
    ensures Follow(w, cap, path).Some? && Spells(w, cap, path, cptr) && level + |path| <= CNODE_MAX_DEPTH
    decreases CNODE_MAX_DEPTH - level
  {
    hide NodeOf, Pow2, ShiftRight, Pack, ExtractIndex, PastGuard, Both;
    var n := w.nodes[NodeOf(w, cap).value];
    var index := ExtractIndex(PastGuard(n, cptr), n.slotBits);
    var slot, rest := n.slots[index], ShiftRight(PastGuard(n, cptr), n.slotBits);
    MatchedFits(n, cptr);
    hide GuardMatches;
    var tail := [];
    if slot.nested {
      tail := FoundIsSpelled(w, slot.cap, rest, Both(acc, slot.mask), level + 1);
    } else {
      OneBase(rest);
    }
    path := [index] + tail;
    assert path[1..] == tail;
    EncodeFits(w, slot.cap, tail);
    SpellOne(n, index, Encode(w, slot.cap, tail), Width(w, slot.cap, tail), cptr);
  }

  lemma OneBase(x: nat)
    ensures x % Pow2(0) == 0
  {
  }

  lemma MatchedFits(n: Node, cptr: nat)
    requires GuardMatches(n, cptr)
    ensures Passable(n)
  {
    MaskIsMod(cptr, n.guardBits);
  }

  /** `cptr_lookup` answers exactly as path resolution does: it finds a capability with certain
      rights just when the low bits of the pointer spell a path of at most 16 indices to it and
      those are the rights of the capability that every mask on the path lets through. */
  lemma LookupIff(w: Space, root: CapId, cptr: nat, cap: Slot, rights: Rights)
    ensures Lookup(w, root, cptr, ALL_RIGHTS, 0) == Hit(cap, rights)
            <==> exists path: seq<nat> ::
                   && |path| <= CNODE_MAX_DEPTH && Spells(w, root, path, cptr)
                   && Follow(w, root, path).Some? && Follow(w, root, path).value.cap == cap
                   && rights == Both(w.g.table[cap].rights, Follow(w, root, path).value.mask)
  {
    hide Lookup, Follow, Spells, Both;
    var a := Lookup(w, root, cptr, ALL_RIGHTS, 0);
    if a.Hit? {
      var path := FoundIsSpelled(w, root, cptr, ALL_RIGHTS, 0);
      SpelledIsFound(w, root, path, cptr, ALL_RIGHTS, 0);
      AllMask(Follow(w, root, path).value.mask);
    }
    forall path: seq<nat> |
      |path| <= CNODE_MAX_DEPTH && Spells(w, root, path, cptr) && Follow(w, root, path).Some?
      ensures var t := Follow(w, root, path).value; a == Hit(t.cap, Both(w.g.table[t.cap].rights, t.mask))
    {
      SpelledIsFound(w, root, path, cptr, ALL_RIGHTS, 0);
      AllMask(Follow(w, root, path).value.mask);
    }
  }

  lemma AllMask(m: Rights)
    ensures Both(ALL_RIGHTS, m) == m
  {
  }

  /** Paths are a prefix code: a pointer spells at most one path that leads anywhere. */
  lemma {:induction false} SpelledOnce(w: Space, cap: CapId, path: seq<nat>, other: seq<nat>, cptr: nat)
    requires Follow(w, cap, path).Some? && Spells(w, cap, path, cptr)
    requires Follow(w, cap, other).Some? && Spells(w, cap, other, cptr)
    ensures path == other
    decreases |path|
  {
    hide NodeOf, Pow2, ShiftRight, Pack, ExtractIndex, GuardMatches, PastGuard, Both;
    var n, slot := w.nodes[NodeOf(w, cap).value], SlotAt(w, cap, path[0]).value;
    FirstDigits(w, cap, path, cptr);
    FirstDigits(w, cap, other, cptr);
    if slot.nested {
      SpelledOnce(w, slot.cap, path[1..], other[1..], ShiftRight(PastGuard(n, cptr), n.slotBits));
      assert path == [path[0]] + path[1..] && other == [other[0]] + other[1..];
    }
  }

  lemma FirstDigits(w: Space, cap: CapId, path: seq<nat>, cptr: nat)
    requires path != [] && SlotAt(w, cap, path[0]).Some? && Spells(w, cap, path, cptr)
    ensures var n := w.nodes[NodeOf(w, cap).value];
            && GuardMatches(n, cptr) && path[0] == ExtractIndex(PastGuard(n, cptr), n.slotBits)
            && Spells(w, SlotAt(w, cap, path[0]).value.cap, path[1..], ShiftRight(PastGuard(n, cptr), n.slotBits))
  {
    hide NodeOf, Pow2, ShiftRight, Pack, ExtractIndex, GuardMatches, PastGuard;
    var slot := SlotAt(w, cap, path[0]).value;
    EncodeFits(w, slot.cap, path[1..]);
    SpellOne(w.nodes[NodeOf(w, cap).value], path[0], Encode(w, slot.cap, path[1..]), Width(w, slot.cap, path[1..]), cptr);
  }

  /** The pointer made for a path finds the end of the path; it fits the 64-bit word of a pointer
      whenever the path takes up no more than that. */
  lemma EncodedIsFound(w: Space, root: CapId, path: seq<nat>)
    requires |path| <= CNODE_MAX_DEPTH && Follow(w, root, path).Some?
    ensures Width(w, root, path) <= 64 ==> Encode(w, root, path) < Pow2(64)
    ensures var t := Follow(w, root, path).value;
            Lookup(w, root, Encode(w, root, path), ALL_RIGHTS, 0) == Hit(t.cap, Both(w.g.table[t.cap].rights, t.mask))
  {
    hide Lookup, Follow, Encode, Width, Pow2, Both;
    EncodeFits(w, root, path);
    if Width(w, root, path) <= 64 { Pow2Grows(Width(w, root, path), 64); }
    DivModUnique(Encode(w, root, path), Pow2(Width(w, root, path)), 0, Encode(w, root, path));
    SpelledIsFound(w, root, path, Encode(w, root, path), ALL_RIGHTS, 0);
    AllMask(Follow(w, root, path).value.mask);
  }

  // ---------------------------------------------------------------- rights

  /** The slots a path passes through. */
  function Trail(w: Space, cap: CapId, path: seq<nat>): seq<NodeSlot>
    decreases |path|
  {
    if path == [] || SlotAt(w, cap, path[0]).None? then []
    else [SlotAt(w, cap, path[0]).value] + Trail(w, SlotAt(w, cap, path[0]).value.cap, path[1..])
  }

  lemma {:induction false} MaskWithin(w: Space, cap: CapId, path: seq<nat>, slot: NodeSlot)
    requires Follow(w, cap, path).Some? && slot in Trail(w, cap, path)
    ensures Subset(Follow(w, cap, path).value.mask, slot.mask)
    decreases |path|
  {
    hide SlotAt, Both, Subset;
    var first := SlotAt(w, cap, path[0]).value;
    if first.nested {
      var rest := Follow(w, first.cap, path[1..]).value.mask;
      BothWithin(first.mask, rest);
      if slot != first {
        MaskWithin(w, first.cap, path[1..], slot);
        Lineage.SubsetTrans(Both(first.mask, rest), rest, slot.mask);
      }
    } else {
      assert Trail(w, first.cap, path[1..]) == [];
      Lineage.SubsetSelf(first.mask);
    }
  }

  lemma BothWithin(a: Rights, b: Rights)
    ensures Subset(Both(a, b), a) && Subset(Both(a, b), b)
  {
  }

  /** What a lookup grants is within the rights of the capability it finds and within every mask
      the pointer leads through. */
  lemma LookupWithin(w: Space, root: CapId, cptr: nat) returns (path: seq<nat>)
    requires Lookup(w, root, cptr, ALL_RIGHTS, 0).Hit?
    ensures |path| <= CNODE_MAX_DEPTH && Spells(w, root, path, cptr) && Follow(w, root, path).Some?
    ensures var a := Lookup(w, root, cptr, ALL_RIGHTS, 0);
            && a.cap == Follow(w, root, path).value.cap
            && Subset(a.rights, w.g.table[a.cap].rights)
            && forall slot :: slot in Trail(w, root, path) ==> Subset(a.rights, slot.mask)
  {
    hide Lookup, Follow, Spells, Both, Subset, Trail;
    var a := Lookup(w, root, cptr, ALL_RIGHTS, 0);
    LookupIff(w, root, cptr, a.cap, a.rights);
    path :| && |path| <= CNODE_MAX_DEPTH && Spells(w, root, path, cptr)
            && Follow(w, root, path).Some? && Follow(w, root, path).value.cap == a.cap
            && a.rights == Both(w.g.table[a.cap].rights, Follow(w, root, path).value.mask);
    BothWithin(w.g.table[a.cap].rights, Follow(w, root, path).value.mask);
    forall slot | slot in Trail(w, root, path)
      ensures Subset(a.rights, slot.mask)
    {
      MaskWithin(w, root, path, slot);
      Lineage.SubsetTrans(a.rights, Follow(w, root, path).value.mask, slot.mask);
    }
  }

  lemma SubsetBoth(r: Rights, a: Rights, b: Rights)
    ensures Subset(r, Both(a, b)) <==> Subset(r, a) && Subset(r, b)
  {
    if Subset(r, Both(a, b)) {
      hide Subset, Both;
      BothWithin(a, b);
      Lineage.SubsetTrans(r, Both(a, b), a);
      Lineage.SubsetTrans(r, Both(a, b), b);
    } else if Subset(r, a) && Subset(r, b) {
      AndAssoc(r, a, b);
    }
  }

  lemma AndAssoc(r: Rights, a: Rights, b: Rights)
    ensures r & (a & b) == (r & a) & b
  {
  }

  lemma {:induction false} MaskHasIff(w: Space, cap: CapId, path: seq<nat>, r: Rights)
    requires Follow(w, cap, path).Some?
    ensures Subset(r, Follow(w, cap, path).value.mask) <==> forall slot :: slot in Trail(w, cap, path) ==> Subset(r, slot.mask)
    decreases |path|
  {
    hide SlotAt, Both, Subset;
    var first := SlotAt(w, cap, path[0]).value;
    if first.nested {
      MaskHasIff(w, first.cap, path[1..], r);
      SubsetBoth(r, first.mask, Follow(w, first.cap, path[1..]).value.mask);
    } else {
      assert Trail(w, first.cap, path[1..]) == [];
    }
  }

  /** No more and no less: a lookup grants some rights exactly when the capability it finds has them
      and every mask on the way lets them through. */
  lemma LookupHasIff(w: Space, root: CapId, path: seq<nat>, cptr: nat, r: Rights)
    requires |path| <= CNODE_MAX_DEPTH && Spells(w, root, path, cptr) && Follow(w, root, path).Some?
    ensures var a := Lookup(w, root, cptr, ALL_RIGHTS, 0);
            && a.Hit? && a.cap == Follow(w, root, path).value.cap
            && (Subset(r, a.rights) <==>
                  Subset(r, w.g.table[a.cap].rights) && forall slot :: slot in Trail(w, root, path) ==> Subset(r, slot.mask))
  {
    hide Lookup, Follow, Spells, Both, Subset, Trail;
    var t := Follow(w, root, path).value;
    SpelledIsFound(w, root, path, cptr, ALL_RIGHTS, 0);
    AllMask(t.mask);
    SubsetBoth(r, w.g.table[t.cap].rights, t.mask);
    MaskHasIff(w, root, path, r);
  }

  // ---------------------------------------------------------------- misses

  /** Every slot on the path leads into another node. */
  predicate Leads(w: Space, cap: CapId, path: seq<nat>)
    decreases |path|
  {
    path != [] ==> && SlotAt(w, cap, path[0]).Some? && SlotAt(w, cap, path[0]).value.nested
                   && Leads(w, SlotAt(w, cap, path[0]).value.cap, path[1..])
  }

  lemma {:induction false} SpelledIsTooDeep(w: Space, cap: CapId, path: seq<nat>, cptr: nat, acc: Rights, level: nat)
    requires Leads(w, cap, path) && Spells(w, cap, path, cptr) && level + |path| == CNODE_MAX_DEPTH
    ensures Lookup(w, cap, cptr, acc, level) == Miss(InvalidParam)
    decreases |path|
  {
    hide NodeOf, Pow2, ShiftRight, Pack, ExtractIndex, GuardMatches, PastGuard, Both;
    if path != [] {
      var n, slot := w.nodes[NodeOf(w, cap).value], SlotAt(w, cap, path[0]).value;
      FirstDigits(w, cap, path, cptr);
      SpelledIsTooDeep(w, slot.cap, path[1..], ShiftRight(PastGuard(n, cptr), n.slotBits), Both(acc, slot.mask), level + 1);
    }
  }

  lemma {:induction false} TooDeepIsSpelled(w: Space, cap: CapId, cptr: nat, acc: Rights, level: nat) returns (path: seq<nat>)
    requires level <= CNODE_MAX_DEPTH && Lookup(w, cap, cptr, acc, level) == Miss(InvalidParam)
    ensures Leads(w, cap, path) && Spells(w, cap, path, cptr) && level + |path| == CNODE_MAX_DEPTH
    decreases CNODE_MAX_DEPTH - level
  {
    hide NodeOf, Pow2, ShiftRight, Pack, ExtractIndex, PastGuard, Both;
    if level == CNODE_MAX_DEPTH {
      OneBase(cptr);
      return [];
    }
    var n := w.nodes[NodeOf(w, cap).value];
    var index := ExtractIndex(PastGuard(n, cptr), n.slotBits);
    IndexInRange(n, PastGuard(n, cptr));
    var slot, rest := n.slots[index], ShiftRight(PastGuard(n, cptr), n.slotBits);
    MatchedFits(n, cptr);
    hide GuardMatches;
    var tail := TooDeepIsSpelled(w, slot.cap, rest, Both(acc, slot.mask), level + 1);
    path := [index] + tail;
    assert path[1..] == tail;
    EncodeFits(w, slot.cap, tail);
    SpellOne(n, index, Encode(w, slot.cap, tail), Width(w, slot.cap, tail), cptr);
  }

  /** A lookup fails with a parameter error exactly when the pointer spells sixteen indices that all
      lead on, and otherwise, when it fails, with an invalid capability. */
  lemma LookupMissIff(w: Space, root: CapId, cptr: nat)
    ensures var a := Lookup(w, root, cptr, ALL_RIGHTS, 0);
            && (a == Miss(InvalidParam) <==>
                  exists path: seq<nat> :: |path| == CNODE_MAX_DEPTH && Leads(w, root, path) && Spells(w, root, path, cptr))
            && (a.Miss? ==> a.why == InvalidParam || a.why == CapInvalid)
  {
    hide Lookup, Spells, Leads;
    MissWhy(w, root, cptr, ALL_RIGHTS, 0);
    if Lookup(w, root, cptr, ALL_RIGHTS, 0) == Miss(InvalidParam) {
      var path := TooDeepIsSpelled(w, root, cptr, ALL_RIGHTS, 0);
    }
    if path: seq<nat> :| |path| == CNODE_MAX_DEPTH && Leads(w, root, path) && Spells(w, root, path, cptr) {
      SpelledIsTooDeep(w, root, path, cptr, ALL_RIGHTS, 0);
    }
  }

  lemma {:induction false} MissWhy(w: Space, cap: CapId, cptr: nat, acc: Rights, level: nat)
    ensures var a := Lookup(w, cap, cptr, acc, level); a.Miss? ==> a.why == InvalidParam || a.why == CapInvalid
    decreases CNODE_MAX_DEPTH - level
  {
    hide NodeOf, ShiftRight, ExtractIndex, GuardMatches, PastGuard, Both;
    if level < CNODE_MAX_DEPTH && NodeOf(w, cap).Some? {
      var n := w.nodes[NodeOf(w, cap).value];
      var index := ExtractIndex(PastGuard(n, cptr), n.slotBits);
      if index < |n.slots| {
        MissWhy(w, n.slots[index].cap, ShiftRight(PastGuard(n, cptr), n.slotBits), Both(acc, n.slots[index].mask), level + 1);
      }
    }
  }

  // ---------------------------------------------------------------- resolve against lookup

  /** Every guard on the way of the pointer matches. */
  predicate GuardsMatch(w: Space, cap: CapId, cptr: nat, level: nat)
    decreases CNODE_MAX_DEPTH - level
  {
    level < CNODE_MAX_DEPTH && NodeOf(w, cap).Some? ==>
      var n := w.nodes[NodeOf(w, cap).value];
      var index := ExtractIndex(PastGuard(n, cptr), n.slotBits);
      && GuardMatches(n, cptr)
      && (index < |n.slots| && n.slots[index].valid && n.slots[index].nested ==>
            GuardsMatch(w, n.slots[index].cap, ShiftRight(PastGuard(n, cptr), n.slotBits), level + 1))
  }

  /** Lookup succeeds exactly when resolve does and the guards match; then both end at one slot. */
  lemma {:induction false} ResolveIff(w: Space, cap: CapId, cptr: nat, acc: Rights, level: nat)
    ensures Lookup(w, cap, cptr, acc, level).Hit? <==> Resolve(w, cap, cptr, level).At? && GuardsMatch(w, cap, cptr, level)
    ensures var p := Resolve(w, cap, cptr, level);
            p.At? ==> && p.node < |w.nodes| && p.index < |w.nodes[p.node].slots|
                      && w.nodes[p.node].slots[p.index].valid && !w.nodes[p.node].slots[p.index].nested
                      && (GuardsMatch(w, cap, cptr, level) ==>
                            Lookup(w, cap, cptr, acc, level).cap == w.nodes[p.node].slots[p.index].cap)
    ensures var p := Resolve(w, cap, cptr, level);
            p.Nowhere? && GuardsMatch(w, cap, cptr, level) ==> Lookup(w, cap, cptr, acc, level) == Miss(p.why)
    decreases CNODE_MAX_DEPTH - level
  {
    hide NodeOf, ShiftRight, ExtractIndex, GuardMatches, PastGuard, Both;
    if level < CNODE_MAX_DEPTH && NodeOf(w, cap).Some? {
      var n := w.nodes[NodeOf(w, cap).value];
      var index := ExtractIndex(PastGuard(n, cptr), n.slotBits);
      if index < |n.slots| && n.slots[index].valid && n.slots[index].nested {
        var slot := n.slots[index];
        ResolveIff(w, slot.cap, ShiftRight(PastGuard(n, cptr), n.slotBits), Both(acc, slot.mask), level + 1);
      }
    }
  }

  /** Resolve lands on the very slot that ends the path the pointer spells. */
  lemma {:induction false} ResolveFollows(w: Space, cap: CapId, path: seq<nat>, cptr: nat, level: nat)
    requires Follow(w, cap, path).Some? && Spells(w, cap, path, cptr) && level + |path| <= CNODE_MAX_DEPTH
    ensures var t := Follow(w, cap, path).value; Resolve(w, cap, cptr, level) == At(t.node, t.index)
    decreases |path|
  {
    hide NodeOf, Pow2, ShiftRight, Pack, ExtractIndex, GuardMatches, PastGuard, Both;
    var n, slot := w.nodes[NodeOf(w, cap).value], SlotAt(w, cap, path[0]).value;
    FirstDigits(w, cap, path, cptr);
    if slot.nested {
      ResolveFollows(w, slot.cap, path[1..], ShiftRight(PastGuard(n, cptr), n.slotBits), level + 1);
    }
  }
}
