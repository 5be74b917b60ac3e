/** What every run keeps: slots name themselves, nothing stays marked, and no capability ever
    carries more than the creation it descends from. */
module Lineage {
  import opened Capability
  import opened Operations
  import Revocation

  // ---------------------------------------------------------------- slots

  /** A slot holds its own number or 0, and no capability is left half-revoked. */
  ghost predicate Tidy(g: Graph) {
    forall c :: 0 <= c < CAP_TABLE_SIZE ==> (g.table[c].id == 0 || g.table[c].id == c) && !g.table[c].revoked
  }

  /** The two free-slot tests of the code pick the same slot, never a live one, and fail together
      exactly when the table is full. */
  lemma AllocatorsAgree(g: Graph)
    requires Tidy(g)
    ensures FirstMismatch(g.table, 0) == FirstZero(g.table, 1)
    ensures FirstZero(g.table, 1) != 0 ==> !Live(g, FirstZero(g.table, 1))
    ensures FirstZero(g.table, 1) == 0 <==> forall c :: 1 <= c < CAP_TABLE_SIZE ==> Live(g, c)
  {
  }

  // ---------------------------------------------------------------- when an operation is accepted

  predicate FreeSlot(g: Graph) {
    exists c :: 1 <= c < CAP_TABLE_SIZE && !Live(g, c)
  }

  /** The guards of `cap_derive`. */
  predicate MayDerive(g: Graph, owner: DomainId, parent: CapId, sub: Rights) {
    && owner < HIC_DOMAIN_MAX && parent < CAP_TABLE_SIZE && g.table[parent].id == parent
    && g.table[parent].owner == owner && Subset(sub, g.table[parent].rights) && FreeSlot(g)
  }

  /** The guards of `cap_transfer_with_attenuation`. */
  predicate MayAttenuate(g: Graph, from: DomainId, to: DomainId, cap: CapId, rights: Rights) {
    && from < HIC_DOMAIN_MAX && to < HIC_DOMAIN_MAX && cap < CAP_TABLE_SIZE && g.table[cap].id == cap
    && g.table[cap].owner == from && Subset(rights, g.table[cap].rights) && FreeSlot(g)
  }

  /** What must hold before a call for it to succeed, in terms of the tables and the arguments. */
  predicate Accepted(s: State, op: Op)
    requires Legal(s, op)
  {
    match op
    case OpCreate(owner, r) =>
      && owner < HIC_DOMAIN_MAX && FreeSlot(s.g)
      && (r.CoreCap? && r.policy.Some? ==> CanCreate(s, owner, r.policy.value))
    case OpDerive(owner, parent, sub) => MayDerive(s.g, owner, parent, sub)
    case OpDeriveWithPolicy(owner, parent, sub, policy) =>
      MayDerive(s.g, owner, parent, sub) && PolicyAllowed(s.g.table[parent].res.maxPolicy, policy)
    case OpTransfer(from, to, cap) =>
      && from < HIC_DOMAIN_MAX && to < HIC_DOMAIN_MAX && cap < CAP_TABLE_SIZE
      && s.g.table[cap].id == cap && s.g.table[cap].owner == from
    case OpAttenuate(from, to, cap, rights) => MayAttenuate(s.g, from, to, cap, rights)
    case OpRevoke(cap) => Live(s.g, cap)
    case OpShmemAlloc(owner, size, _, lent) =>
      && owner < HIC_DOMAIN_MAX && size != 0 && lent.Some? && FreeSlot(s.g)
      && exists i :: 0 <= i < |s.m.regions| && s.m.regions[i].base == 0
    case OpShmemMap(from, to, cap, rights) => MayAttenuate(s.g, from, to, cap, rights)
    case OpShmemUnmap(domain, handle) =>
      && HandleCap(handle) < CAP_TABLE_SIZE && TokenValid(s.keys, domain, handle)
      && s.g.table[HandleCap(handle)].owner == domain
    case OpRekey(domain, _) => domain < HIC_DOMAIN_MAX
    case OpStartDomain(_) => exists d :: 0 <= d < MAX_DOMAINS && !s.domains[d].started
    case OpSetPolicies(domain, _) => domain < MAX_DOMAINS && s.domains[domain].started
  }

  /** The operations that hand out a capability when they succeed. */
  predicate Makes(op: Op) {
    op.OpCreate? || op.OpShmemAlloc? || Derived(op)
  }

  /** Those that make it from another one. */
  predicate Derived(op: Op) {
    op.OpDerive? || op.OpDeriveWithPolicy? || op.OpAttenuate? || op.OpShmemMap?
  }

  lemma FreeSlotIff(g: Graph)
    requires Tidy(g)
    ensures FreeSlot(g) <==> FirstZero(g.table, 1) != 0
    ensures FirstMismatch(g.table, 0) == FirstZero(g.table, 1)
  {
    AllocatorsAgree(g);
  }

  lemma DeriveAccepted(g: Graph, owner: DomainId, parent: CapId, sub: Rights)
    requires Tidy(g)
    ensures MayDerive(g, owner, parent, sub) <==> Derive(g, owner, parent, sub).status == Success
    ensures Derive(g, owner, parent, sub).cap != 0 <==> MayDerive(g, owner, parent, sub)
    ensures MayDerive(g, owner, parent, sub) ==> Derive(g, owner, parent, sub).cap == FirstZero(g.table, 1)
  {
    hide Record, FreeSlot, FirstZero, FirstMismatch, Subset, Exceeds;
    FreeSlotIff(g);
    if parent < CAP_TABLE_SIZE { RightsTestsAgree(sub, g.table[parent].rights); }
  }

  lemma AttenuateAccepted(g: Graph, from: DomainId, to: DomainId, cap: CapId, rights: Rights)
    requires Tidy(g)
    ensures MayAttenuate(g, from, to, cap, rights) <==> Attenuate(g, from, to, cap, rights).status == Success
    ensures Attenuate(g, from, to, cap, rights).cap != 0 <==> MayAttenuate(g, from, to, cap, rights)
    ensures MayAttenuate(g, from, to, cap, rights) ==> Attenuate(g, from, to, cap, rights).cap == FirstZero(g.table, 1)
  {
    hide Record, FreeSlot, FirstZero, FirstMismatch, Subset;
    FreeSlotIff(g);
  }

  /** An operation succeeds exactly when it is accepted, and hands out the first free slot then. */
  lemma AcceptedIff(s: State, op: Op)
    requires Legal(s, op) && Tidy(s.g)
    ensures Accepted(s, op) <==> Step(s, op).status == Success
    ensures Step(s, op).cap == if Makes(op) && Accepted(s, op) then FirstZero(s.g.table, 1) else 0
    ensures Makes(op) && Accepted(s, op) ==> FirstZero(s.g.table, 1) != 0
  {
    hide Create, Derive, DeriveWithPolicy, Attenuate, Transfer, Revoke, ShmemAlloc, ShmemMap, ShmemUnmap, TokenValid,
      HandleCap, FreeSlot, CanCreate, AllowedPolicies, MayDerive, MayAttenuate, PolicyAllowed, FirstZero;
    match op
    case OpCreate(owner, r) => CreateAccepted(s.g, owner, r.Rights(), r.Resource(), r.Full());
    case OpDerive(owner, parent, sub) => DeriveAccepted(s.g, owner, parent, sub);
    case OpDeriveWithPolicy(owner, parent, sub, policy) => PolicyAccepted(s.g, owner, parent, sub, policy);
    case OpTransfer(from, to, cap) => OthersAccepted(s, op);
    case OpAttenuate(from, to, cap, rights) => AttenuateAccepted(s.g, from, to, cap, rights);
    case OpRevoke(cap) => OthersAccepted(s, op);
    case OpShmemAlloc(owner, size, flags, lent) => AllocAccepted(s, owner, size, flags, lent);
    case OpShmemMap(from, to, cap, rights) => MapAccepted(s, from, to, cap, rights);
    case OpShmemUnmap(domain, handle) => OthersAccepted(s, op);
    case OpRekey(domain, key) =>
    case OpStartDomain(level) =>
    case OpSetPolicies(domain, mask) =>
  }

  lemma OthersAccepted(s: State, op: Op)
    requires Legal(s, op) && Tidy(s.g) && (op.OpTransfer? || op.OpRevoke? || op.OpShmemUnmap?)
    ensures (Accepted(s, op) <==> Step(s, op).status == Success) && Step(s, op).cap == 0
  {
    hide RevokeFrom, ReleaseAll, DropRef, TokenValid, HandleCap;
  }

  lemma CreateAccepted(g: Graph, owner: DomainId, rights: Rights, res: Resource, full: Status)
    requires Tidy(g) && full != Success
    ensures var o := Create(g, owner, rights, res, full);
            && (o.status == Success <==> owner < HIC_DOMAIN_MAX && FreeSlot(g))
            && o.cap == (if owner < HIC_DOMAIN_MAX && FreeSlot(g) then FirstZero(g.table, 1) else 0)
            && (o.status == Success ==> o.cap != 0)
  {
    hide FreeSlot, FirstZero;
    FreeSlotIff(g);
  }

  lemma PolicyAccepted(g: Graph, owner: DomainId, parent: CapId, sub: Rights, policy: Policy)
    requires Tidy(g) && (parent < CAP_TABLE_SIZE ==> g.table[parent].res.LogicalCore?)
    ensures var o := DeriveWithPolicy(g, owner, parent, sub, policy);
            var may := MayDerive(g, owner, parent, sub) && PolicyAllowed(g.table[parent].res.maxPolicy, policy);
            && (o.status == Success <==> may) && o.cap == (if may then FirstZero(g.table, 1) else 0)
            && (may ==> o.cap != 0)
  {
    hide Derive, FirstZero, PolicyAllowed, FreeSlot, Subset;
    DeriveAccepted(g, owner, parent, sub);
    if parent < CAP_TABLE_SIZE { DeriveSource(g, owner, parent, sub); }
  }

  lemma AllocAccepted(s: State, owner: DomainId, size: nat, flags: bv32, lent: Option<nat>)
    requires Tidy(s.g)
    ensures var e := ShmemAlloc(s, owner, size, flags, lent);
            var may := && owner < HIC_DOMAIN_MAX && size != 0 && lent.Some? && FreeSlot(s.g)
                       && exists i :: 0 <= i < |s.m.regions| && s.m.regions[i].base == 0;
            && (e.status == Success <==> may) && e.cap == (if may then FirstZero(s.g.table, 1) else 0)
            && (may ==> e.cap != 0)
  {
    hide FreeSlot, FirstZero, Create, FreeFrames, Pages, ShmemRights;
    if lent.Some? {
      CreateAccepted(s.g, owner, ShmemRights(flags), Memory(lent.value, Pages(size) * PAGE_SIZE % U32), NoMemory);
    }
  }

  lemma MapAccepted(s: State, from: DomainId, to: DomainId, cap: CapId, rights: Rights)
    requires Tidy(s.g)
    ensures var e := ShmemMap(s, from, to, cap, rights);
            && (MayAttenuate(s.g, from, to, cap, rights) <==> e.status == Success)
            && e.cap == (if MayAttenuate(s.g, from, to, cap, rights) then FirstZero(s.g.table, 1) else 0)
            && (e.status == Success ==> e.cap != 0)
  {
    hide Attenuate, AddRef, FirstZero, Subset, FreeSlot;
    AttenuateAccepted(s.g, from, to, cap, rights);
  }

  /** The parent of a derivation keeps its entry. */
  lemma DeriveSource(g: Graph, owner: DomainId, parent: CapId, sub: Rights)
    requires parent < CAP_TABLE_SIZE && Tidy(g)
    ensures Derive(g, owner, parent, sub).cap != 0 ==> Derive(g, owner, parent, sub).g.table[parent] == g.table[parent]
  {
    hide Record;
  }

  // ---------------------------------------------------------------- what is handed out

  predicate HandsOut(op: Op) {
    !op.OpTransfer? && !op.OpRevoke? && !op.OpShmemUnmap?
  }

  /** The one entry of the table that differs is slot `c`, which was free. */
  ghost predicate Filled(g: Graph, h: Graph, c: CapId, cap: CapId) {
    && 1 <= c < CAP_TABLE_SIZE && g.table[c].id != c
    && h.table == g.table[c := h.table[c]]
    && h.table[c].id == cap && (cap == 0 || cap == c) && !h.table[c].revoked
  }

  /** A table operation hands out a free slot and touches no other entry, or touches none. */
  ghost predicate Allots(g: Graph, o: Outcome) {
    if o.cap == 0 then o.g.table == g.table else Filled(g, o.g, o.cap, o.cap)
  }

  lemma CreateAllots(g: Graph, owner: DomainId, rights: Rights, res: Resource, full: Status)
    ensures Allots(g, Create(g, owner, rights, res, full))
  {
  }

  lemma DeriveAllots(g: Graph, owner: DomainId, parent: CapId, sub: Rights)
    ensures Allots(g, Derive(g, owner, parent, sub))
  {
    hide Record;
  }

  lemma AttenuateAllots(g: Graph, from: DomainId, to: DomainId, cap: CapId, rights: Rights)
    ensures Allots(g, Attenuate(g, from, to, cap, rights))
  {
    hide Record;
  }

  /** A refused policy leaves its slot filled with a dead entry. */
  lemma DeriveWithPolicyAllots(g: Graph, owner: DomainId, parent: CapId, sub: Rights, policy: Policy) returns (c: CapId)
    requires parent < CAP_TABLE_SIZE ==> g.table[parent].res.LogicalCore?
    ensures var o := DeriveWithPolicy(g, owner, parent, sub, policy);
            if c == 0 then o.g.table == g.table && o.cap == 0 else Filled(g, o.g, c, o.cap)
  {
    hide Derive;
    DeriveAllots(g, owner, parent, sub);
    c := Derive(g, owner, parent, sub).cap;
    DeriveStatus(g, owner, parent, sub);
  }

  lemma DeriveStatus(g: Graph, owner: DomainId, parent: CapId, sub: Rights)
    ensures Derive(g, owner, parent, sub).status == Success <==> Derive(g, owner, parent, sub).cap != 0
  {
    hide Record;
  }

  /** The slot an operation fills, 0 when it fills none. */
  lemma StepFills(s: State, op: Op) returns (c: CapId)
    requires Legal(s, op) && HandsOut(op)
    ensures c == 0 ==> Step(s, op).s.g.table == s.g.table && Step(s, op).cap == 0
    ensures c != 0 ==> Filled(s.g, Step(s, op).s.g, c, Step(s, op).cap)
  {
    hide Create, Derive, Attenuate, DeriveWithPolicy, AddRef, FreeFrames, FindRegion, Pages, FirstUnstarted, AllowedPolicies;
    match op
    case OpCreate(owner, r) =>
      CreateAllots(s.g, owner, r.Rights(), r.Resource(), r.Full());
      c := Step(s, op).cap;
    case OpDerive(owner, parent, rights) =>
      DeriveAllots(s.g, owner, parent, rights);
      c := Step(s, op).cap;
    case OpDeriveWithPolicy(owner, parent, rights, policy) =>
      c := DeriveWithPolicyAllots(s.g, owner, parent, rights, policy);
    case OpAttenuate(from, to, cap, rights) =>
      AttenuateAllots(s.g, from, to, cap, rights);
      c := Step(s, op).cap;
    case OpShmemAlloc(owner, size, flags, lent) =>
      if lent.Some? {
        CreateAllots(s.g, owner, ShmemRights(flags), Memory(lent.value, Pages(size) * PAGE_SIZE % U32), NoMemory);
      }
      c := Step(s, op).cap;
    case OpShmemMap(from, to, cap, rights) =>
      AttenuateAllots(s.g, from, to, cap, rights);
      c := Step(s, op).cap;
    case OpRekey(_, _) => c := 0;
    case OpStartDomain(_) => c := 0;
    case OpSetPolicies(_, _) => c := 0;
  }

  lemma FilledTidy(g: Graph, h: Graph, c: CapId, cap: CapId)
    requires Tidy(g) && Filled(g, h, c, cap)
    ensures Tidy(h)
  {
  }

  lemma SweptTidy(g: Graph, w: Sweep)
    requires Tidy(g) && Revocation.Swept(g, w)
    ensures Tidy(w.g)
  {
  }

  lemma StepTidy(s: State, op: Op)
    requires Legal(s, op) && Tidy(s.g)
    ensures Tidy(Step(s, op).s.g)
    ensures var e := Step(s, op);
            e.cap != 0 ==> !Live(s.g, e.cap) && Live(e.s.g, e.cap)
  {
    if HandsOut(op) {
      hide Step, Legal, Tidy;
      var c := StepFills(s, op);
      if c != 0 { FilledTidy(s.g, Step(s, op).s.g, c, Step(s, op).cap); }
    } else if op.OpRevoke? {
      hide RevokeFrom, ReleaseAll, Revocation.Swept, Tidy;
      if op.cap != 0 {
        Revocation.RevokeFromSweeps(s.g, op.cap, 0);
        SweptTidy(s.g, RevokeFrom(s.g, op.cap, 0));
      }
    } else {
      hide DropRef, TokenValid, HandleCap;
    }
  }

  /** Over every run: slots stay tidy, so no capability is ever found revoked but present. */
  lemma {:induction false} RunTidy(s: State, ops: seq<Op>)
    requires Tidy(s.g) && LegalRun(s, ops)
    ensures Tidy(Run(s, ops).g)
    decreases |ops|
  {
    hide Step, Legal, Tidy;
    if ops != [] {
      StepTidy(s, ops[0]);
      RunTidy(Step(s, ops[0]).s, ops[1..]);
    }
  }

  /** `get_domain_revoked_caps`: the live capabilities of a domain that carry the revoked flag. */
  function RevokedCaps(g: Graph, domain: DomainId): set<CapId> {
    set c: Slot | g.table[c].id == c && g.table[c].owner == domain && g.table[c].revoked :: c as CapId
  }

  lemma NoRevokedCaps(keys: seq<Key>, ops: seq<Op>, domain: DomainId)
    requires |keys| == HIC_DOMAIN_MAX && LegalRun(Init(keys), ops)
    ensures RevokedCaps(Run(Init(keys), ops).g, domain) == {}
  {
    RunTidy(Init(keys), ops);
  }

  // ---------------------------------------------------------------- lineage

  /** A creation: the rights and the resource it gave out, and whether an application asked. */
  datatype Grant = Grant(byApplication: bool, rights: Rights, res: Resource)

  /** A state with its history: all grants so far, and for every slot the grant its capability
      descends from.  Grant 0 stands for the empty slot 0, which has no rights at all. */
  datatype Traced = Traced(s: State, grants: seq<Grant>, origin: Origins)

  type Origins = o: seq<nat> | |o| == CAP_TABLE_SIZE witness seq(CAP_TABLE_SIZE, i => 0)

  function ByApplication(s: State, owner: DomainId): bool {
    owner < MAX_DOMAINS && s.domains[owner].level == Application
  }

  /** The grant a creation makes. */
  function GrantOf(s: State, op: Op): Option<Grant> {
    match op
    case OpCreate(o, r) => Some(Grant(ByApplication(s, o), r.Rights(), r.Resource()))
    case OpShmemAlloc(o, size, flags, lent) =>
      if lent.None? then None
      else Some(Grant(ByApplication(s, o), ShmemRights(flags), Memory(lent.value, Pages(size) * PAGE_SIZE % U32)))
    case _ => None
  }

  /** The slot a derivation starts from. */
  function SourceOf(op: Op): CapId {
    match op
    case OpDerive(_, parent, _) => parent
    case OpDeriveWithPolicy(_, parent, _, _) => parent
    case OpAttenuate(_, _, cap, _) => cap
    case OpShmemMap(_, _, cap, _) => cap
    case _ => 0
  }

  function TracedStep(t: Traced, op: Op): Traced
    requires Legal(t.s, op)
  {
    var e, from, given := Step(t.s, op), SourceOf(op), GrantOf(t.s, op);
    if e.cap == 0 || e.cap >= CAP_TABLE_SIZE then t.(s := e.s)
    else if given.Some? then Traced(e.s, t.grants + [given.value], t.origin[e.cap := |t.grants|])
    else if from < CAP_TABLE_SIZE then Traced(e.s, t.grants, t.origin[e.cap := t.origin[from]])
    else t.(s := e.s)
  }

  /** The same resource, for a logical core at most as strong a policy. */
  predicate NoStronger(res: Resource, given: Resource) {
    if given.LogicalCore? then
      && res.LogicalCore? && res == given.(policy := res.policy, maxPolicy := res.policy)
      && res.policy.Rank() >= given.policy.Rank()
    else res == given
  }

  predicate Within(e: Entry, o: Grant) {
    Subset(e.rights, o.rights) && NoStronger(e.res, o.res)
  }

  /** A logical core is given out with one policy, and by an application never as exclusive or quota. */
  predicate GrantSane(o: Grant) {
    o.res.LogicalCore? ==> o.res.policy == o.res.maxPolicy && (o.byApplication ==> o.res.policy.Rank() >= 2)
  }

  /** A row not started is empty; the mask of an application domain holds `Shared` at most. */
  ghost predicate DomainsSane(ds: seq<Domain>) {
    forall d :: 0 <= d < |ds| ==>
                  && (!ds[d].started ==> ds[d].allowed == {})
                  && (ds[d].level == Application ==> ds[d].allowed <= {Shared})
  }

  /** Every capability present lies within the grant it descends from. */
  ghost predicate Confined(t: Traced) {
    && DomainsSane(t.s.domains)
    && (forall c :: 0 <= c < CAP_TABLE_SIZE ==> t.origin[c] < |t.grants|)
    && (forall k :: 0 <= k < |t.grants| ==> GrantSane(t.grants[k]))
    && (forall c :: 0 <= c < CAP_TABLE_SIZE && t.s.g.table[c].id == c ==>
                      Within(t.s.g.table[c], t.grants[t.origin[c]]))
  }

  lemma SubsetTrans(a: Rights, b: Rights, c: Rights)
    requires Subset(a, b) && Subset(b, c)
    ensures Subset(a, c)
  {
    calc {
      a & c;
    ==  (a & b) & c;
    ==  a & (b & c);
    ==  a & b;
    ==  a;
    }
  }

  /** The two rights tests of the code agree. */
  lemma RightsTestsAgree(sub: Rights, all: Rights)
    ensures Exceeds(sub, all) <==> !Subset(sub, all)
  {
  }

  /** `res` is `from`, or a logical core with an allowed weaker policy. */
  predicate Attenuates(res: Resource, from: Resource) {
    || res == from
    || (from.LogicalCore? && res.LogicalCore? && PolicyAllowed(from.maxPolicy, res.policy)
        && res == from.(policy := res.policy, maxPolicy := res.policy))
  }

  lemma AttenuatesNoStronger(res: Resource, from: Resource, given: Resource)
    requires Attenuates(res, from) && NoStronger(from, given)
    ensures NoStronger(res, given)
  {
  }

  /** What is handed out has a subset of the rights of `from`, over the same resource. */
  ghost predicate Inherits(g: Graph, o: Outcome, from: CapId) {
    o.cap != 0 ==>
      && from < CAP_TABLE_SIZE && g.table[from].id == from && o.cap < CAP_TABLE_SIZE
      && Subset(o.g.table[o.cap].rights, g.table[from].rights)
      && Attenuates(o.g.table[o.cap].res, g.table[from].res)
  }

  lemma DeriveInherits(g: Graph, owner: DomainId, parent: CapId, sub: Rights)
    ensures Inherits(g, Derive(g, owner, parent, sub), parent)
  {
    hide Record;
    if parent < CAP_TABLE_SIZE { RightsTestsAgree(sub, g.table[parent].rights); }
  }

  lemma AttenuateInherits(g: Graph, from: DomainId, to: DomainId, cap: CapId, rights: Rights)
    ensures Inherits(g, Attenuate(g, from, to, cap, rights), cap)
  {
    hide Record;
  }

  lemma DeriveWithPolicyInherits(g: Graph, owner: DomainId, parent: CapId, sub: Rights, policy: Policy)
    requires parent < CAP_TABLE_SIZE ==> g.table[parent].res.LogicalCore?
    ensures Inherits(g, DeriveWithPolicy(g, owner, parent, sub, policy), parent)
  {
    hide Derive, Subset;
    DeriveInherits(g, owner, parent, sub);
    DeriveStatus(g, owner, parent, sub);
    DeriveAllots(g, owner, parent, sub);
  }

  /** A derivation of any kind inherits from its source. */
  lemma DerivedWithin(s: State, op: Op)
    requires Legal(s, op) && HandsOut(op) && GrantOf(s, op).None?
    ensures Inherits(s.g, Outcome(Step(s, op).s.g, Success, Step(s, op).cap), SourceOf(op))
  {
    hide Create, Derive, Attenuate, DeriveWithPolicy, AddRef, FreeFrames, FindRegion, FirstUnstarted, Subset, Attenuates;
    match op
    case OpDerive(owner, parent, sub) => DeriveInherits(s.g, owner, parent, sub);
    case OpDeriveWithPolicy(owner, parent, sub, policy) => DeriveWithPolicyInherits(s.g, owner, parent, sub, policy);
    case OpAttenuate(from, to, cap, rights) => AttenuateInherits(s.g, from, to, cap, rights);
    case OpShmemMap(from, to, cap, rights) => AttenuateInherits(s.g, from, to, cap, rights);
    case OpShmemAlloc(_, _, _, _) =>
    case OpRekey(_, _) =>
    case OpStartDomain(_) =>
    case OpSetPolicies(_, _) =>
  }

  /** A creation hands out exactly its grant, and no application can ask for a strong policy. */
  lemma CreatedWithin(s: State, op: Op)
    requires Legal(s, op) && DomainsSane(s.domains) && Step(s, op).cap != 0 && GrantOf(s, op).Some?
    ensures var o, e := GrantOf(s, op).value, Step(s, op);
            && e.cap < CAP_TABLE_SIZE && GrantSane(o)
            && e.s.g.table[e.cap].rights == o.rights && e.s.g.table[e.cap].res == o.res
  {
    hide FirstZero, FreeFrames, FindRegion, Pages;
  }

  lemma StepDomainsSane(s: State, op: Op)
    requires Legal(s, op) && DomainsSane(s.domains)
    ensures DomainsSane(Step(s, op).s.domains)
  {
    hide Create, Derive, Attenuate, DeriveWithPolicy, AddRef, FreeFrames, FindRegion, RevokeFrom, ReleaseAll, DropRef;
  }

  /** The entries other than the one handed out keep their bounds: they are unchanged, passed on
      to another owner, or cleared. */
  ghost predicate OthersKept(g: Graph, h: Graph, cap: CapId) {
    forall c :: 0 <= c < CAP_TABLE_SIZE && (c != cap || cap == 0) && h.table[c].id == c ==>
                  && g.table[c].id == c && h.table[c].res == g.table[c].res
                  && (h.table[c].rights == g.table[c].rights || (c == 0 && h.table[c].rights == 0))
  }

  lemma FilledKeepsOthers(g: Graph, h: Graph, c: CapId, cap: CapId)
    requires Filled(g, h, c, cap)
    ensures OthersKept(g, h, cap)
  {
  }

  lemma SweptKeepsOthers(g: Graph, w: Sweep)
    requires Revocation.Swept(g, w)
    ensures OthersKept(g, w.g, 0)
  {
  }

  lemma StepOthersKept(s: State, op: Op)
    requires Legal(s, op) && Tidy(s.g)
    ensures OthersKept(s.g, Step(s, op).s.g, Step(s, op).cap)
  {
    if HandsOut(op) {
      hide Step, Legal, Filled;
      var c := StepFills(s, op);
      if c != 0 { FilledKeepsOthers(s.g, Step(s, op).s.g, c, Step(s, op).cap); }
    } else if op.OpRevoke? {
      hide RevokeFrom, ReleaseAll, Revocation.Swept;
      if op.cap != 0 {
        Revocation.RevokeFromSweeps(s.g, op.cap, 0);
        SweptKeepsOthers(s.g, RevokeFrom(s.g, op.cap, 0));
      }
    } else {
      hide DropRef, TokenValid, HandleCap;
    }
  }

  lemma OnlyHandsOut(s: State, op: Op)
    requires Legal(s, op) && !HandsOut(op)
    ensures Step(s, op).cap == 0
  {
  }

  /** Whatever is handed out lies within the grant it is then traced to. */
  lemma HandedOutConfined(t: Traced, op: Op)
    requires Legal(t.s, op) && Confined(t) && Step(t.s, op).cap != 0
    ensures var e, u := Step(t.s, op), TracedStep(t, op);
            && e.cap < CAP_TABLE_SIZE && u.origin[e.cap] < |u.grants|
            && Within(e.s.g.table[e.cap], u.grants[u.origin[e.cap]])
    ensures GrantOf(t.s, op).Some? ==> GrantSane(GrantOf(t.s, op).value)
  {
    hide Step, Legal, GrantOf, SourceOf, DomainsSane, Attenuates, Subset;
    var e, from := Step(t.s, op), SourceOf(op);
    if !HandsOut(op) { OnlyHandsOut(t.s, op); }
    if GrantOf(t.s, op).Some? {
      CreatedWithin(t.s, op);
      SubsetSelf(GrantOf(t.s, op).value.rights);
    } else {
      DerivedWithin(t.s, op);
      var o := t.grants[t.origin[from]];
      SubsetTrans(e.s.g.table[e.cap].rights, t.s.g.table[from].rights, o.rights);
      AttenuatesNoStronger(e.s.g.table[e.cap].res, t.s.g.table[from].res, o.res);
    }
  }

  lemma SubsetSelf(a: Rights)
    ensures Subset(a, a) && Subset(0, a)
  {
  }

  /** One operation, whatever it is, keeps everything confined. */
  lemma StepConfined(t: Traced, op: Op)
    requires Legal(t.s, op) && Tidy(t.s.g) && Confined(t)
    ensures Confined(TracedStep(t, op))
  {
    hide Step, Legal, Tidy, Subset, NoStronger, Attenuates, GrantOf, SourceOf, GrantSane, DomainsSane;
    var e, u := Step(t.s, op), TracedStep(t, op);
    StepDomainsSane(t.s, op);
    StepOthersKept(t.s, op);
    if e.cap != 0 { HandedOutConfined(t, op); }
    forall c | 0 <= c < CAP_TABLE_SIZE && u.s.g.table[c].id == c
      ensures Within(u.s.g.table[c], u.grants[u.origin[c]])
    {
      if c != e.cap || e.cap == 0 {
        assert u.grants[u.origin[c]] == t.grants[t.origin[c]];
        WithinKept(t.s.g.table[c], u.s.g.table[c], t.grants[t.origin[c]]);
      }
    }
  }

  lemma WithinKept(e: Entry, f: Entry, o: Grant)
    requires Within(e, o) && f.res == e.res && (f.rights == e.rights || f.rights == 0)
    ensures Within(f, o)
  {
    SubsetSelf(o.rights);
  }

  /** A run with its history. */
  function TracedRun(t: Traced, ops: seq<Op>): Traced
    requires LegalRun(t.s, ops)
    decreases |ops|
  {
    if ops == [] then t
    else
      var u := TracedStep(t, ops[0]);
      TracedRun(u, ops[1..])
  }

  /** The zeroed tables: nothing granted yet but the empty slot. */
  function Start(keys: seq<Key>): Traced
    requires |keys| == HIC_DOMAIN_MAX
  {
    Traced(Init(keys), [Grant(false, 0, Memory(0, 0))], seq(CAP_TABLE_SIZE, i => 0))
  }

  lemma {:induction false} RunConfined(t: Traced, ops: seq<Op>)
    requires LegalRun(t.s, ops) && Tidy(t.s.g) && Confined(t)
    ensures Confined(TracedRun(t, ops)) && TracedRun(t, ops).s == Run(t.s, ops)
    decreases |ops|
  {
    hide Step, Legal, Tidy, Confined, TracedStep;
    if ops != [] {
      TracedStepState(t, ops[0]);
      StepTidy(t.s, ops[0]);
      StepConfined(t, ops[0]);
      RunConfined(TracedStep(t, ops[0]), ops[1..]);
    }
  }

  lemma TracedStepState(t: Traced, op: Op)
    requires Legal(t.s, op)
    ensures TracedStep(t, op).s == Step(t.s, op).s
  {
    hide Step, Legal;
  }

  /** No amplification, over every run of every mix of operations, slot reuse included: a live
      capability has no right and no resource beyond the creation it descends from; if that
      creation was asked for by an application domain, a logical core never runs exclusive or by
      quota, whatever masks were set in between. */
  lemma NoAmplification(keys: seq<Key>, ops: seq<Op>, c: CapId)
    requires |keys| == HIC_DOMAIN_MAX && LegalRun(Init(keys), ops) && Live(Run(Init(keys), ops).g, c)
    ensures var u := TracedRun(Start(keys), ops);
            && u.s == Run(Init(keys), ops) && u.origin[c] < |u.grants|
            && var e, o := u.s.g.table[c], u.grants[u.origin[c]];
            && Subset(e.rights, o.rights)
            && (!o.res.LogicalCore? ==> e.res == o.res)
            && (o.res.LogicalCore? ==>
                  && e.res.LogicalCore? && e.res.core == o.res.core && e.res.quota == o.res.quota
                  && e.res.policy == e.res.maxPolicy && PolicyAllowed(o.res.policy, e.res.policy)
                  && (o.byApplication ==> e.res.policy == Shared || e.res.policy == Idle))
  {
    hide Step, Legal, Run, TracedRun;
    SubsetSelf(0);
    RunConfined(Start(keys), ops);
  }
}
