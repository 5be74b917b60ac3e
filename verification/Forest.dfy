/** The derivation links over runs: which operations keep them a forest, exactly. */
module Forest {
  import opened Capability
  import opened Operations
  import opened Revocation
  import Lineage
  import Subtree

  ghost predicate IsForest(g: Graph) {
    exists rank :: ForestBy(g, rank)
  }

  /** A recorded child has no right that its parent lacks. */
  ghost predicate Shrinking(g: Graph) {
    forall p: CapId, c: CapId :: Listed(g, p, c) && c < CAP_TABLE_SIZE ==> Subset(g.table[c].rights, g.table[p].rights)
  }

  // ---------------------------------------------------------------- one link at a time

  /** Changing one free slot, filled or not, without touching links.  Row 0 of the links is no
      part of the forest. */
  lemma FillForest(g: Graph, h: Graph, rank: CapId -> nat, c: CapId)
    requires ForestBy(g, rank) && 1 <= c < CAP_TABLE_SIZE && !Live(g, c)
    requires forall x :: 1 <= x < CAP_TABLE_SIZE ==> h.links[x] == g.links[x]
    requires forall x :: 0 <= x < CAP_TABLE_SIZE && x != c ==> h.table[x].id == g.table[x].id
    ensures ForestBy(h, rank)
  {
    hide Distinct;
    assert forall x :: x != c ==> Live(h, x) == Live(g, x);
    assert forall p: CapId, d: CapId :: Listed(h, p, d) ==> Listed(g, p, d);
    assert g.links[c] == Link(0, []);
  }

  /** A filled slot linked both ways under a live parent. */
  lemma LinkForest(g: Graph, h: Graph, rank: CapId -> nat, p: CapId, c: CapId)
    requires ForestBy(g, rank) && Live(g, p) && 1 <= c < CAP_TABLE_SIZE && !Live(g, c) && Live(h, c)
    requires |g.links[p].children| < MAX_DERIVATIVES
    requires h.links == g.links[p := Record(g.links[p], c)][c := Link(p, [])]
    requires forall x :: 0 <= x < CAP_TABLE_SIZE && x != c ==> h.table[x].id == g.table[x].id
    ensures ForestBy(h, (x: CapId) => if x == c then rank(p) + 1 else rank(x))
  {
    var up: CapId -> nat := (x: CapId) => if x == c then rank(p) + 1 else rank(x);
    assert g.links[c] == Link(0, []);
    assert forall x :: x != c ==> Live(h, x) == Live(g, x);
    var cs := g.links[p].children;
    DistinctPlaces(cs);
    DistinctPlaces(cs + [c]);
    forall q: CapId, d: CapId | Listed(h, q, d)
      ensures Live(h, q) && Live(h, d) && h.links[d].parent == q && up(q) < up(d)
    {
      assert (q == p && d == c) || Listed(g, q, d);
    }
  }

  // ---------------------------------------------------------------- operation by operation

  /** `cap_derive` keeps the forest. */
  lemma DeriveForest(g: Graph, owner: DomainId, parent: CapId, sub: Rights)
    requires IsForest(g) && Lineage.Tidy(g)
    ensures IsForest(Derive(g, owner, parent, sub).g)
  {
    hide Distinct, Record;
    var rank :| ForestBy(g, rank);
    var o := Derive(g, owner, parent, sub);
    if o.cap != 0 {
      assert !Live(g, o.cap);
      assert g.links[o.cap] == Link(0, []);
      if 1 <= parent && |g.links[parent].children| < MAX_DERIVATIVES {
        assert o.g.links == g.links[parent := Record(g.links[parent], o.cap)][o.cap := Link(parent, [])];
        LinkForest(g, o.g, rank, parent, o.cap);
      } else {
        FillForest(g, o.g, rank, o.cap);
      }
    }
  }

  /** `cap_transfer_with_attenuation` records a child that does not point back: the forest is kept
      just when there was no list to record it in. */
  lemma AttenuateForestIff(g: Graph, from: DomainId, to: DomainId, cap: CapId, rights: Rights)
    requires IsForest(g) && Lineage.Tidy(g) && Lineage.MayAttenuate(g, from, to, cap, rights)
    ensures cap < CAP_TABLE_SIZE
    ensures IsForest(Attenuate(g, from, to, cap, rights).g) <==> cap == 0 || |g.links[cap].children| >= MAX_DERIVATIVES
  {
    hide Distinct;
    Lineage.AttenuateAccepted(g, from, to, cap, rights);
    var rank :| ForestBy(g, rank);
    var o := Attenuate(g, from, to, cap, rights);
    assert g.links[o.cap] == Link(0, []);
    if cap == 0 || |g.links[cap].children| >= MAX_DERIVATIVES {
      FillForest(g, o.g, rank, o.cap);
    } else {
      assert o.g.links[cap].children[|g.links[cap].children|] == o.cap;
      assert Listed(o.g, cap, o.cap);
    }
  }

  /** `cap_derive_with_policy`: a refused policy leaves a dead slot in the list of the parent. */
  lemma DeriveWithPolicyForestIff(g: Graph, owner: DomainId, parent: CapId, sub: Rights, policy: Policy)
    requires IsForest(g) && Lineage.Tidy(g) && 1 <= parent < CAP_TABLE_SIZE && g.table[parent].res.LogicalCore?
    ensures IsForest(DeriveWithPolicy(g, owner, parent, sub, policy).g) <==>
            || !Lineage.MayDerive(g, owner, parent, sub)
            || PolicyAllowed(g.table[parent].res.maxPolicy, policy)
            || |g.links[parent].children| >= MAX_DERIVATIVES
  {
    hide Distinct, Lineage.MayDerive;
    Lineage.DeriveAccepted(g, owner, parent, sub);
    var d, o := Derive(g, owner, parent, sub), DeriveWithPolicy(g, owner, parent, sub, policy);
    DeriveForest(g, owner, parent, sub);
    Lineage.DeriveStatus(g, owner, parent, sub);
    if d.cap != 0 {
      assert !Live(g, d.cap);
      if PolicyAllowed(g.table[parent].res.maxPolicy, policy) {
        var rank :| ForestBy(d.g, rank);
        assert ForestBy(o.g, rank) by { SameIdsForest(d.g, o.g, rank); }
      } else if |g.links[parent].children| >= MAX_DERIVATIVES {
        var rank :| ForestBy(g, rank);
        FillForest(g, o.g, rank, d.cap);
      } else {
        assert o.g.links[parent].children[|g.links[parent].children|] == d.cap;
        assert Listed(o.g, parent, d.cap);
      }
    }
  }

  lemma SameIdsForest(g: Graph, h: Graph, rank: CapId -> nat)
    requires ForestBy(g, rank) && h.links == g.links
    requires forall x :: 0 <= x < CAP_TABLE_SIZE ==> h.table[x].id == g.table[x].id
    ensures ForestBy(h, rank)
  {
    hide Distinct;
    assert forall x :: Live(h, x) == Live(g, x);
    assert forall p: CapId, c: CapId :: Listed(h, p, c) == Listed(g, p, c);
  }

  /** `shmem_unmap` frees a slot without unlinking it: harmless just when nothing links it. */
  lemma UnmapForestIff(g: Graph, cap: CapId)
    requires IsForest(g) && Lineage.Tidy(g) && cap < CAP_TABLE_SIZE
    ensures IsForest(g.(table := g.table[cap := Cleared(g.table[cap])])) <==>
            !Live(g, cap) || (g.links[cap] == Link(0, []) && forall p: CapId :: !Listed(g, p, cap))
  {
    hide Distinct;
    var rank :| ForestBy(g, rank);
    var h := g.(table := g.table[cap := Cleared(g.table[cap])]);
    assert forall x: CapId :: x != cap ==> Live(h, x) == Live(g, x);
    assert forall p: CapId, c: CapId :: Listed(h, p, c) == Listed(g, p, c);
    if !Live(g, cap) || (g.links[cap] == Link(0, []) && forall p: CapId :: !Listed(g, p, cap)) {
      assert ForestBy(h, rank) by {
        forall p: CapId, c: CapId | Listed(h, p, c)
          ensures Live(h, p) && Live(h, c) && h.links[c].parent == p && rank(p) < rank(c)
        {
          assert Listed(g, p, c);
        }
      }
    } else {
      assert !Live(h, cap);
    }
  }

  /** `cap_revoke` keeps the forest. */
  lemma RevokeForest(g: Graph, cap: CapId)
    requires IsForest(g) && Lineage.Tidy(g) && Live(g, cap)
    ensures IsForest(RevokeFrom(g, cap, 0).g)
  {
    hide Distinct, Doomed, RevokeFrom, Erase, Detach;
    var rank :| ForestBy(g, rank);
    RevokeFromExact(g, rank, cap, 0);
    var gone := Doomed(g, cap, 0);
    forall x | x in gone && x != cap
      ensures Live(g, x) && g.links[x].parent in gone
    {
      DoomedFacts(g, rank, cap, 0, x);
    }
    EraseForest(g, rank, cap, gone);
    assert gone + {cap} == gone by { RootDoomed(g, cap); }
    assert ForestBy(RevokeFrom(g, cap, 0).g, rank);
  }

  lemma RootDoomed(g: Graph, cap: CapId)
    requires cap < CAP_TABLE_SIZE
    ensures cap in Doomed(g, cap, 0)
  {
  }

  // ---------------------------------------------------------------- steps and runs

  /** The operation leaves a link that nothing will clean up. */
  ghost predicate Tangles(s: State, op: Op)
    requires Legal(s, op)
  {
    match op
    case OpAttenuate(_, _, cap, _) =>
      Lineage.Accepted(s, op) && 1 <= cap < CAP_TABLE_SIZE && |s.g.links[cap].children| < MAX_DERIVATIVES
    case OpShmemMap(_, _, cap, _) =>
      Lineage.Accepted(s, op) && 1 <= cap < CAP_TABLE_SIZE && |s.g.links[cap].children| < MAX_DERIVATIVES
    case OpDeriveWithPolicy(owner, parent, sub, policy) =>
      && Lineage.MayDerive(s.g, owner, parent, sub) && parent < CAP_TABLE_SIZE
      && !PolicyAllowed(s.g.table[parent].res.maxPolicy, policy) && |s.g.links[parent].children| < MAX_DERIVATIVES
    case OpShmemUnmap(_, handle) =>
      && Lineage.Accepted(s, op) && Live(s.g, HandleCap(handle))
      && (s.g.links[HandleCap(handle)] != Link(0, []) || exists p: CapId :: Listed(s.g, p, HandleCap(handle)))
    case _ => false
  }

  /** Slots are tidy, and slot 0 is the empty memory capability the tables start with. */
  ghost predicate Grounded(g: Graph) {
    Lineage.Tidy(g) && g.table[0].res == Memory(0, 0) && g.table[0].rights == 0
  }

  lemma StepGrounded(s: State, op: Op)
    requires Legal(s, op) && Grounded(s.g)
    ensures Grounded(Step(s, op).s.g)
  {
    hide Step, Legal;
    Lineage.StepTidy(s, op);
    Lineage.StepOthersKept(s, op);
  }

  lemma CreateForest(g: Graph, owner: DomainId, rights: Rights, res: Resource, full: Status)
    requires IsForest(g) && Lineage.Tidy(g)
    ensures IsForest(Create(g, owner, rights, res, full).g)
    ensures Create(g, owner, rights, res, full).g.links == g.links
  {
    hide Distinct;
    var rank :| ForestBy(g, rank);
    var o := Create(g, owner, rights, res, full);
    if o.cap != 0 { FillForest(g, o.g, rank, o.cap); }
  }

  lemma TransferForest(g: Graph, from: DomainId, to: DomainId, cap: CapId)
    requires IsForest(g)
    ensures IsForest(Transfer(g, from, to, cap).g)
  {
    hide Distinct;
    var rank :| ForestBy(g, rank);
    SameIdsForest(g, Transfer(g, from, to, cap).g, rank);
  }

  /** Exactly the tangling operations break the forest. */
  lemma ForestStepIff(s: State, op: Op)
    requires Legal(s, op) && Grounded(s.g) && IsForest(s.g)
    ensures IsForest(Step(s, op).s.g) <==> !Tangles(s, op)
  {
    hide IsForest, Create, Derive, DeriveWithPolicy, Attenuate, Transfer, RevokeFrom, ReleaseAll, AddRef, DropRef,
      FreeFrames, FindRegion, Pages, TokenValid, HandleCap, FirstUnstarted, AllowedPolicies, CanCreate, Lineage.Tidy,
      Lineage.Accepted, Lineage.MayDerive, Lineage.MayAttenuate;
    Lineage.AcceptedIff(s, op);
    match op
    case OpCreate(owner, r) => CreateForest(s.g, owner, r.Rights(), r.Resource(), r.Full());
    case OpDerive(owner, parent, sub) => DeriveForest(s.g, owner, parent, sub);
    case OpDeriveWithPolicy(owner, parent, sub, policy) =>
      Lineage.DeriveAccepted(s.g, owner, parent, sub);
      if 1 <= parent < CAP_TABLE_SIZE { DeriveWithPolicyForestIff(s.g, owner, parent, sub, policy); }
      else { OutOfRangeParent(s.g, owner, parent, sub, policy); }
    case OpTransfer(from, to, cap) => TransferForest(s.g, from, to, cap);
    case OpAttenuate(from, to, cap, rights) =>
      Lineage.AttenuateAccepted(s.g, from, to, cap, rights);
      if Step(s, op).cap != 0 { AttenuateForestIff(s.g, from, to, cap, rights); }
      else { AttenuateRefused(s.g, from, to, cap, rights); }
    case OpRevoke(cap) =>
      if Live(s.g, cap) { RevokeForest(s.g, cap); }
    case OpShmemAlloc(owner, size, flags, lent) =>
      if lent.Some? {
        CreateForest(s.g, owner, ShmemRights(flags), Memory(lent.value, Pages(size) * PAGE_SIZE % U32), NoMemory);
      }
    case OpShmemMap(from, to, cap, rights) =>
      Lineage.AttenuateAccepted(s.g, from, to, cap, rights);
      if Step(s, op).cap != 0 { AttenuateForestIff(s.g, from, to, cap, rights); }
      else { AttenuateRefused(s.g, from, to, cap, rights); }
    case OpShmemUnmap(domain, handle) =>
      if HandleCap(handle) < CAP_TABLE_SIZE { UnmapForestIff(s.g, HandleCap(handle)); }
    case OpRekey(_, _) =>
    case OpStartDomain(_) =>
    case OpSetPolicies(_, _) =>
  }

  lemma AttenuateRefused(g: Graph, from: DomainId, to: DomainId, cap: CapId, rights: Rights)
    ensures var o := Attenuate(g, from, to, cap, rights);
            (o.cap == 0 ==> o.g == g) && (o.status == Success <==> o.cap != 0)
  {
    hide Record;
  }

  lemma OutOfRangeParent(g: Graph, owner: DomainId, parent: CapId, sub: Rights, policy: Policy)
    requires parent >= CAP_TABLE_SIZE
    ensures DeriveWithPolicy(g, owner, parent, sub, policy).g == g && Derive(g, owner, parent, sub).cap == 0
  {
  }

  // ---------------------------------------------------------------- rights along the links

  /** The only link an operation may add leads from its source to the slot it hands out. */
  ghost predicate OnlyLinks(g: Graph, h: Graph, from: CapId, cap: CapId) {
    forall p: CapId, c: CapId :: Listed(h, p, c) ==> Listed(g, p, c) || (p == from && c == cap)
  }

  lemma DeriveLinks(g: Graph, owner: DomainId, parent: CapId, sub: Rights)
    ensures OnlyLinks(g, Derive(g, owner, parent, sub).g, parent, Derive(g, owner, parent, sub).cap)
  {
  }

  lemma DeriveWithPolicyLinks(g: Graph, owner: DomainId, parent: CapId, sub: Rights, policy: Policy)
    requires parent < CAP_TABLE_SIZE ==> g.table[parent].res.LogicalCore?
    ensures var o := DeriveWithPolicy(g, owner, parent, sub, policy);
            OnlyLinks(g, o.g, parent, Derive(g, owner, parent, sub).cap)
            && (o.cap != 0 ==> o.cap == Derive(g, owner, parent, sub).cap)
  {
    hide Derive;
    DeriveLinks(g, owner, parent, sub);
  }

  lemma AttenuateLinks(g: Graph, from: DomainId, to: DomainId, cap: CapId, rights: Rights)
    ensures OnlyLinks(g, Attenuate(g, from, to, cap, rights).g, cap, Attenuate(g, from, to, cap, rights).cap)
  {
  }

  lemma RevokeLinks(g: Graph, cap: CapId)
    requires IsForest(g) && Lineage.Tidy(g) && Live(g, cap)
    ensures OnlyLinks(g, RevokeFrom(g, cap, 0).g, 0, 0)
  {
    hide Distinct, Doomed, RevokeFrom;
    var rank :| ForestBy(g, rank);
    RevokeFromExact(g, rank, cap, 0);
    var p := g.links[cap].parent;
    if 1 <= p < CAP_TABLE_SIZE { SwapRemoveFacts(g.links[p].children, cap); }
  }

  /** In a forest before and after, every link that is there after an operation carries a subset
      of rights if every link did before. */
  lemma StepShrinking(s: State, op: Op)
    requires Legal(s, op) && Grounded(s.g) && IsForest(s.g) && Shrinking(s.g) && IsForest(Step(s, op).s.g)
    ensures Shrinking(Step(s, op).s.g)
  {
    hide Step, Legal, Subset, Distinct;
    var g, h, e := s.g, Step(s, op).s.g, Step(s, op);
    var before :| ForestBy(g, before);
    var after :| ForestBy(h, after);
    Lineage.StepOthersKept(s, op);
    Lineage.StepTidy(s, op);
    var d := StepLinks(s, op);
    forall p: CapId, c: CapId | Listed(h, p, c) && c < CAP_TABLE_SIZE
      ensures Subset(h.table[c].rights, h.table[p].rights)
    {
      if Listed(g, p, c) {
        assert p != e.cap && c != e.cap;
      } else {
        assert c == e.cap && Lineage.HandsOut(op) && Lineage.GrantOf(s, op).None? && p != e.cap;
        Lineage.DerivedWithin(s, op);
      }
    }
  }

  /** The slot a new link of the operation leads to; dead unless it is the one handed out. */
  lemma StepLinks(s: State, op: Op) returns (d: CapId)
    requires Legal(s, op) && Grounded(s.g) && IsForest(s.g)
    ensures OnlyLinks(s.g, Step(s, op).s.g, Lineage.SourceOf(op), d)
    ensures d == Step(s, op).cap || !Live(Step(s, op).s.g, d)
    ensures d != 0 && Lineage.SourceOf(op) != 0 ==> Lineage.HandsOut(op) && Lineage.GrantOf(s, op).None?
  {
    hide IsForest, Create, Derive, DeriveWithPolicy, Attenuate, Transfer, RevokeFrom, ReleaseAll, AddRef, DropRef,
      FreeFrames, FindRegion, Pages, TokenValid, HandleCap, FirstUnstarted, AllowedPolicies, CanCreate, Lineage.Tidy;
    d := Step(s, op).cap;
    match op
    case OpCreate(owner, r) => CreateForest(s.g, owner, r.Rights(), r.Resource(), r.Full());
    case OpDerive(owner, parent, sub) => DeriveLinks(s.g, owner, parent, sub);
    case OpDeriveWithPolicy(owner, parent, sub, policy) =>
      DeriveWithPolicyLinks(s.g, owner, parent, sub, policy);
      d := Derive(s.g, owner, parent, sub).cap;
      RefusedIsDead(s.g, owner, parent, sub, policy);
    case OpTransfer(from, to, cap) =>
      assert Transfer(s.g, from, to, cap).g.links == s.g.links by { TransferLinks(s.g, from, to, cap); }
    case OpAttenuate(from, to, cap, rights) => AttenuateLinks(s.g, from, to, cap, rights);
    case OpRevoke(cap) => if Live(s.g, cap) { RevokeLinks(s.g, cap); }
    case OpShmemAlloc(owner, size, flags, lent) =>
      if lent.Some? {
        CreateForest(s.g, owner, ShmemRights(flags), Memory(lent.value, Pages(size) * PAGE_SIZE % U32), NoMemory);
      }
    case OpShmemMap(from, to, cap, rights) =>
      AttenuateLinks(s.g, from, to, cap, rights);
      AttenuateRefused(s.g, from, to, cap, rights);
    case OpShmemUnmap(domain, handle) =>
    case OpRekey(_, _) =>
    case OpStartDomain(_) =>
    case OpSetPolicies(_, _) =>
  }

  lemma TransferLinks(g: Graph, from: DomainId, to: DomainId, cap: CapId)
    ensures Transfer(g, from, to, cap).g.links == g.links
  {
  }

  lemma RefusedIsDead(g: Graph, owner: DomainId, parent: CapId, sub: Rights, policy: Policy)
    requires parent < CAP_TABLE_SIZE ==> g.table[parent].res.LogicalCore?
    ensures var d, o := Derive(g, owner, parent, sub).cap, DeriveWithPolicy(g, owner, parent, sub, policy);
            d == o.cap || !Live(o.g, d)
  {
    hide Record;
  }

  // ---------------------------------------------------------------- whole runs

  /** No operation of the run tangles the links. */
  ghost predicate Untangled(s: State, ops: seq<Op>)
    decreases |ops|
  {
    ops == [] || (Legal(s, ops[0]) && !Tangles(s, ops[0]) && Untangled(Step(s, ops[0]).s, ops[1..]))
  }

  /** Over every run without a tangling operation the links stay a forest with shrinking rights. */
  lemma {:induction false} RunForest(s: State, ops: seq<Op>)
    requires Grounded(s.g) && IsForest(s.g) && Shrinking(s.g) && Untangled(s, ops)
    ensures LegalRun(s, ops)
    ensures Grounded(Run(s, ops).g) && IsForest(Run(s, ops).g) && Shrinking(Run(s, ops).g)
    decreases |ops|
  {
    hide Step, Legal, Grounded, IsForest, Shrinking, Tangles;
    if ops != [] {
      StepGrounded(s, ops[0]);
      ForestStepIff(s, ops[0]);
      StepShrinking(s, ops[0]);
      RunForest(Step(s, ops[0]).s, ops[1..]);
    }
  }

  lemma InitForest(keys: seq<Key>)
    requires |keys| == HIC_DOMAIN_MAX
    ensures Grounded(Init(keys).g) && IsForest(Init(keys).g) && Shrinking(Init(keys).g)
  {
    assert ForestBy(Init(keys).g, (x: CapId) => 0);
  }

  /** After every run without a tangling operation, revoking a capability erases exactly the doomed
      slots; that covers everything recorded below it if and only if its subtree is thin. */
  lemma RevokeAfterRun(keys: seq<Key>, ops: seq<Op>, cap: CapId)
    requires |keys| == HIC_DOMAIN_MAX && Untangled(Init(keys), ops)
    requires LegalRun(Init(keys), ops) && Live(Run(Init(keys), ops).g, cap)
    ensures var s := Run(Init(keys), ops);
            var r := Revoke(s, cap);
            && r.status == Success
            && r.s.g == Erase(Detach(s.g, cap), Doomed(s.g, cap, 0))
            && (forall x :: x in Doomed(s.g, cap, 0) ==> Subtree.Below(s.g, cap, x))
            && ((forall x: CapId :: Subtree.Below(s.g, cap, x) ==> !Live(r.s.g, x)) <==> Subtree.Thin(s.g, cap))
  {
    hide Run, Doomed, RevokeFrom, Subtree.Below, Subtree.Thin, Untangled, LegalRun, ReleaseAll, Distinct, ForestBy,
      Erase, Detach;
    InitForest(keys);
    RunForest(Init(keys), ops);
    var g := Run(Init(keys), ops).g;
    var rank :| ForestBy(g, rank);
    RevokeFromExact(g, rank, cap, 0);
    Subtree.WholeSubtreeFreedIff(g, rank, cap);
    forall x | x in Doomed(g, cap, 0)
      ensures Subtree.Below(g, cap, x)
    {
      Subtree.FreedIsBelow(g, rank, cap, x);
    }
  }

  // ---------------------------------------------------------------- where the promise ends

  /** The seventeenth derivation from one capability is not recorded, and outlives its parent. */
  lemma FullListEscapes(g: Graph, owner: DomainId, parent: CapId, sub: Rights)
    requires IsForest(g) && Lineage.Tidy(g) && Live(g, parent)
    requires Derive(g, owner, parent, sub).cap != 0 && |g.links[parent].children| == MAX_DERIVATIVES
    ensures var o := Derive(g, owner, parent, sub);
            Live(o.g, o.cap) && Live(RevokeFrom(o.g, parent, 0).g, o.cap)
  {
    hide Distinct, Doomed, RevokeFrom, Unlink;
    var rank :| ForestBy(g, rank);
    var o := Derive(g, owner, parent, sub);
    FillForest(g, o.g, rank, o.cap);
    RevokeFromExact(o.g, rank, parent, 0);
    if o.cap in Doomed(o.g, parent, 0) {
      DoomedFacts(o.g, rank, parent, 0, o.cap);
    }
  }

  /** Two leaves under one capability: the loop skips the second one. */
  lemma SecondLeafSkipped(g: Graph, cap: CapId, c: CapId, d: CapId)
    requires Lineage.Tidy(g) && Live(g, cap) && Live(g, c) && Live(g, d) && cap != c && c != d && cap != d
    requires g.links[cap].children == [c, d] && g.links[c] == Link(cap, [])
    ensures var h := RevokeFrom(g, cap, 0).g;
            !Live(h, cap) && !Live(h, c) && Live(h, d)
  {
    hide RevokeFrom;
    SecondLeafTables(g, cap, c, d);
  }

  /** The tables then: both are gone, and only the lists of the two and of the parent changed. */
  lemma SecondLeafTables(g: Graph, cap: CapId, c: CapId, d: CapId)
    requires Lineage.Tidy(g) && Live(g, cap) && Live(g, c) && Live(g, d) && cap != c && c != d && cap != d
    requires g.links[cap].children == [c, d] && g.links[c] == Link(cap, [])
    ensures var h := RevokeFrom(g, cap, 0).g;
            && (forall x: CapId :: Live(h, x) <==> Live(g, x) && x != cap && x != c)
            && forall p :: 0 <= p < CAP_TABLE_SIZE && p != cap && p != c ==> h.links[p] == Unlink(g.links, cap)[p]
  {
    var marked := Mark(g, cap);
    var w := RevokeFrom(marked, c, 1);
    assert RevokeChildren(Mark(marked, c), c, 0, 1) == Sweep(Mark(marked, c), []);
    assert IndexOf([c, d], c) == 0 && SwapRemove([c, d], c) == [d];
    assert w.g.links[cap].children == [d];
    assert RevokeChildren(w.g, cap, 1, 0) == Sweep(w.g, []);
    assert RevokeChildren(marked, cap, 0, 0).g == w.g;
  }

  /** A run after which revoking slot 1 leaves slot 3, derived from it, valid. */
  lemma SecondChildSurvives(keys: seq<Key>)
    requires |keys| == HIC_DOMAIN_MAX
    ensures var ops := [OpCreate(1, MemoryCap(0x1000, 0x1000, 3))] + ([OpDerive(1, 1, 1)] + ([OpDerive(1, 1, 1)] + []));
            LegalRun(Init(keys), ops)
            && var h := Revoke(Run(Init(keys), ops), 1).s.g;
            !Live(h, 1) && !Live(h, 2) && Live(h, 3)
  {
    hide RevokeFrom, LegalRun, Run;
    var o1, o2 := OpCreate(1, MemoryCap(0x1000, 0x1000, 3)), OpDerive(1, 1, 1);
    var s1 := Step(Init(keys), o1).s;
    assert s1.g.table[1].id == 1;
    var s2 := Step(s1, o2).s;
    assert s2.g.table[2].id == 2 && s2.g.links[1] == Link(0, [2]);
    var s3 := Step(s2, o2).s;
    assert s3.g.table[3].id == 3 && s3.g.links[1] == Link(0, [2, 3]) && s3.g.links[2] == Link(1, []);
    SecondLeafSkipped(s3.g, 1, 2, 3);
    RunNone(s3);
    RunCons(s2, o2, []);
    RunCons(s1, o2, [o2] + []);
    RunCons(Init(keys), o1, [o2] + ([o2] + []));
  }

  /** A leaf listed under `cap` that does not point back is revoked with it, whoever owns it. */
  lemma ListedLeafTaken(g: Graph, cap: CapId, c: CapId)
    requires Lineage.Tidy(g) && Live(g, cap) && Live(g, c) && cap != c
    requires g.links[cap] == Link(0, [c]) && g.links[c] == Link(0, [])
    ensures !Live(RevokeFrom(g, cap, 0).g, c)
  {
    var marked := Mark(g, cap);
    var w := RevokeFrom(marked, c, 1);
    assert RevokeChildren(Mark(marked, c), c, 0, 1) == Sweep(Mark(marked, c), []);
    assert w.g.links[cap].children == [c];
    assert RevokeChildren(w.g, cap, 1, 0) == Sweep(w.g, []);
    assert RevokeChildren(marked, cap, 0, 0).g == w.g;
  }

  /** A run after which revoking slot 1 takes an unrelated capability with it: slot 2 was
      attenuated from slot 1, revoked and reused by domain 3, and slot 1 still lists it. */
  lemma UnrelatedTaken(keys: seq<Key>)
    requires |keys| == HIC_DOMAIN_MAX
    ensures var ops := [OpCreate(1, ThreadCap(7))]
                       + ([OpAttenuate(1, 2, 1, 0)] + ([OpRevoke(2)] + ([OpCreate(3, ThreadCap(8))] + [])));
            LegalRun(Init(keys), ops)
            && var s := Run(Init(keys), ops);
            Live(s.g, 1) && Live(s.g, 2) && s.g.table[2].owner == 3 && !Live(Revoke(s, 1).s.g, 2)
  {
    hide RevokeFrom, LegalRun, Run;
    var o1, o2, o3, o4 := OpCreate(1, ThreadCap(7)), OpAttenuate(1, 2, 1, 0), OpRevoke(2), OpCreate(3, ThreadCap(8));
    var s1 := Step(Init(keys), o1).s;
    assert s1.g.table[1].id == 1;
    var s2 := Step(s1, o2).s;
    assert s2.g.table[2].id == 2 && s2.g.links[1] == Link(0, [2]) && s2.g.links[2] == Link(0, []);
    var s3 := Step(s2, o3).s;
    RevokeLeaf(s2.g, 2);
    var s4 := Step(s3, o4).s;
    assert s4.g.table[2].id == 2 && s4.g.table[2].owner == 3;
    ListedLeafTaken(s4.g, 1, 2);
    RunNone(s4);
    RunCons(s3, o4, []);
    RunCons(s2, o3, [o4] + []);
    RunCons(s1, o2, [o3] + ([o4] + []));
    RunCons(Init(keys), o1, [o2] + ([o3] + ([o4] + [])));
  }

  lemma RunNone(s: State)
    ensures LegalRun(s, []) && Run(s, []) == s
  {
  }

  lemma RevokeLeaf(g: Graph, c: CapId)
    requires Lineage.Tidy(g) && Live(g, c) && g.links[c] == Link(0, [])
    ensures RevokeFrom(g, c, 0).g == Slots(g.table[c := Cleared(g.table[c])], g.links)
  {
    assert RevokeChildren(Mark(g, c), c, 0, 0) == Sweep(Mark(g, c), []);
    var h := RevokeFrom(g, c, 0).g;
    assert h.table == g.table[c := Cleared(g.table[c])] && h.links == g.links;
  }
}
