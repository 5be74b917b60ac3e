/** What the operations give and take, told by the access checks: what a new capability is good for
    and for whom, what a transfer moves, what the cached check decides, which policies a domain may
    ask for, and why a call is refused. */
module Access {
  import opened Capability
  import opened Operations
  import Revocation
  import Lineage
  import Handles
  import AmpCache
  import CSpace

  // ---------------------------------------------------------------- what is handed out

  /** Whom an operation makes a capability for. */
  function Recipient(op: Op): DomainId
    requires Lineage.Makes(op)
  {
    match op
    case OpCreate(owner, _) => owner
    case OpShmemAlloc(owner, _, _, _) => owner
    case OpDerive(owner, _, _) => owner
    case OpDeriveWithPolicy(owner, _, _, _) => owner
    case OpAttenuate(_, to, _, _) => to
    case OpShmemMap(_, to, _, _) => to
  }

  /** The rights it asks for; shared memory can always be read, and written when flagged so. */
  function Asked(op: Op): Rights
    requires Lineage.Makes(op)
  {
    match op
    case OpCreate(_, MemoryCap(_, _, rights)) => rights
    case OpCreate(_, CoreCap(_, _, _, rights, _)) => rights
    case OpCreate(_, ThreadCap(_)) => CAP_TYPE_THREAD
    case OpCreate(_, CNodeCap(_)) => CAP_CNODE
    case OpShmemAlloc(_, _, flags, _) => if flags & 1 == 1 then 3 else 1
    case OpDerive(_, _, rights) => rights
    case OpDeriveWithPolicy(_, _, rights, _) => rights
    case OpAttenuate(_, _, _, rights) => rights
    case OpShmemMap(_, _, _, rights) => rights
  }

  /** The resource it is for: the one named, or the one of the source, under the policy named. */
  function Subject(s: State, op: Op): Resource
    requires Legal(s, op) && Lineage.Makes(op) && Lineage.Accepted(s, op)
  {
    match op
    case OpCreate(_, MemoryCap(base, size, _)) => Memory(base, size)
    case OpCreate(_, CoreCap(core, flags, quota, _, None)) => LogicalCore(core, flags, quota, Shared, Shared)
    case OpCreate(_, CoreCap(core, flags, quota, _, Some(p))) => LogicalCore(core, flags, quota, p, p)
    case OpCreate(_, ThreadCap(thread)) => Thread(thread)
    case OpCreate(_, CNodeCap(node)) => CNode(node)
    case OpShmemAlloc(_, size, _, lent) => Memory(lent.value, Pages(size) * PAGE_SIZE % U32)
    case OpDeriveWithPolicy(_, parent, _, policy) => s.g.table[parent].res.(policy := policy, maxPolicy := policy)
    case OpDerive(_, parent, _) => s.g.table[parent].res
    case OpAttenuate(_, _, cap, _) => s.g.table[cap].res
    case OpShmemMap(_, _, cap, _) => s.g.table[cap].res
  }

  /** An accepted operation of this kind fills the first free slot with just what was asked for, and
      no other entry changes. */
  lemma HandedOut(s: State, op: Op)
    requires Legal(s, op) && Lineage.Tidy(s.g) && Lineage.Makes(op) && Lineage.Accepted(s, op)
    ensures var e := Step(s, op);
            && 1 <= e.cap < CAP_TABLE_SIZE && !Live(s.g, e.cap)
            && e.s.g.table == s.g.table[e.cap := Entry(e.cap, Asked(op), Recipient(op), false, Subject(s, op))]
            && e.s.keys == s.keys && e.s.domains == s.domains
  {
    hide FirstZero, FirstMismatch, FindRegion, FreeFrames, Pages, AddRef, Record, Exceeds, Subset, CanCreate, PolicyAllowed,
      Lineage.FreeSlot;
    Lineage.AcceptedIff(s, op);
    Lineage.AllocatorsAgree(s.g);
    if op.OpShmemAlloc? { WriteFlag(op.flags); }
  }

  lemma WriteFlag(flags: bv32)
    ensures ShmemRights(flags) == if flags & 1 == 1 then 3 else 1
  {
  }

  /** A handle for the new capability passes exactly for the rights asked for, in whichever domain it
      is made; and exactly the recipient can pass the capability on. */
  lemma HandedOutPasses(s: State, op: Op, domain: DomainId, required: Rights)
    requires Legal(s, op) && Lineage.Tidy(s.g) && Lineage.Makes(op) && Lineage.Accepted(s, op) && domain < HIC_DOMAIN_MAX
    ensures var e := Step(s, op);
            && e.cap < U32
            && (Handles.CheckAccess(e.s, domain, MakeHandle(e.s.keys[domain], e.cap), required) == Success
                <==> Subset(required, Asked(op)))
            && (Step(e.s, OpTransfer(domain, domain, e.cap)).status == Success <==> domain == Recipient(op))
  {
    hide Step, Legal, Lineage.Accepted, Handles.CheckAccess, MakeHandle, Subset, Asked, Subject;
    var e := Step(s, op);
    HandedOut(s, op);
    Lineage.StepTidy(s, op);
    Handles.HandlePassesIff(e.s, domain, e.cap, required);
    SelfTransferIff(e.s, domain, e.cap);
  }

  lemma SelfTransferIff(s: State, domain: DomainId, cap: CapId)
    requires domain < HIC_DOMAIN_MAX && 1 <= cap < CAP_TABLE_SIZE
    ensures Step(s, OpTransfer(domain, domain, cap)).status == Success <==> Live(s.g, cap) && s.g.table[cap].owner == domain
  {
  }

  /** A capability derived from one that names a node names it too exactly when the node right was
      asked for. */
  lemma DerivedNodeIff(s: State, nodes: seq<CSpace.Node>, op: Op)
    requires Legal(s, op) && Lineage.Tidy(s.g) && Lineage.Derived(op) && Lineage.Accepted(s, op)
    requires CSpace.NodeOf(CSpace.Space(s.g, nodes), Lineage.SourceOf(op)).Some?
    ensures var e := Step(s, op);
            CSpace.NodeOf(CSpace.Space(e.s.g, nodes), e.cap)
            == if Subset(CAP_CNODE, Asked(op)) then CSpace.NodeOf(CSpace.Space(s.g, nodes), Lineage.SourceOf(op)) else None
  {
    HandedOut(s, op);
    hide Step, Legal, Lineage.Accepted, Asked, Recipient, Lineage.Tidy;
    NodeBit(Asked(op));
    hide CSpace.HasNodeRight, Subset;
  }

  lemma NodeBit(rights: Rights)
    ensures CSpace.HasNodeRight(rights) <==> Subset(CAP_CNODE, rights)
  {
  }

  /** While a slot is not handed out again its capability keeps its rights and its resource. */
  lemma {:induction false} RunKeeps(s: State, ops: seq<Op>, c: CapId)
    requires LegalRun(s, ops) && Lineage.Tidy(s.g) && 1 <= c < CAP_TABLE_SIZE && Handles.NeverHandedOut(s, ops, c)
    ensures var t := Run(s, ops);
            Live(t.g, c) ==> Live(s.g, c) && t.g.table[c].rights == s.g.table[c].rights && t.g.table[c].res == s.g.table[c].res
    decreases |ops|
  {
    hide Step, Legal, Lineage.Tidy;
    if ops != [] {
      Lineage.StepTidy(s, ops[0]);
      Lineage.StepOthersKept(s, ops[0]);
      RunKeeps(Step(s, ops[0]).s, ops[1..], c);
    }
  }

  /** And so over every run that keeps the key and does not hand the slot out again: the handle
      passes for exactly the rights asked for, as long as the capability is there. */
  lemma HandedOutLasts(s: State, op: Op, ops: seq<Op>, domain: DomainId, required: Rights)
    requires Legal(s, op) && Lineage.Tidy(s.g) && Lineage.Makes(op) && Lineage.Accepted(s, op) && domain < HIC_DOMAIN_MAX
    requires var e := Step(s, op); LegalRun(e.s, ops) && Handles.NeverHandedOut(e.s, ops, e.cap)
    requires Handles.KeepsKey(ops, domain)
    ensures var e, t := Step(s, op), Run(Step(s, op).s, ops);
            && e.cap < U32
            && (Handles.CheckAccess(t, domain, MakeHandle(s.keys[domain], e.cap), required) == Success
                <==> Live(t.g, e.cap) && Subset(required, Asked(op)))
  {
    hide Step, Legal, Lineage.Accepted, Handles.CheckAccess, MakeHandle, Subset, Asked, Subject, Run, LegalRun,
      Handles.NeverHandedOut, Handles.KeepsKey, Lineage.Tidy;
    var e := Step(s, op);
    HandedOut(s, op);
    Lineage.StepTidy(s, op);
    Lineage.RunTidy(e.s, ops);
    RunKeeps(e.s, ops, e.cap);
    Handles.RunKeys(e.s, ops, domain);
    Handles.HandlePassesIff(Run(e.s, ops), domain, e.cap, required);
  }

  /** Only a handle made with the domain's key passes. */
  lemma OnlyMadePasses(s: State, domain: DomainId, handle: nat, required: Rights)
    requires domain < HIC_DOMAIN_MAX && Handles.CheckAccess(s, domain, handle, required) == Success
    ensures handle == MakeHandle(s.keys[domain], HandleCap(handle))
  {
    hide Token, Handles.Tested;
  }

  /** Why an access is refused: no such slot, no such capability, or else rights or a handle that do
      not fit. */
  lemma AccessRefusedWhy(s: State, domain: DomainId, handle: nat, required: Rights)
    requires Lineage.Tidy(s.g) && domain < HIC_DOMAIN_MAX
    ensures var status, cap := Handles.CheckAccess(s, domain, handle, required), HandleCap(handle);
            var named := handle != 0 && cap < CAP_TABLE_SIZE;
            var present := named && s.g.table[cap].id == cap;
            && (status == InvalidParam <==> !named)
            && (status == CapInvalid <==> named && !present)
            && (status == Permission <==>
                  present && !(Subset(required, s.g.table[cap].rights) && handle == MakeHandle(s.keys[domain], cap)))
  {
    TokenValidIff(s.keys, domain, handle);
    if HandleCap(handle) < CAP_TABLE_SIZE { Handles.TestedIsSubset(s.g.table[HandleCap(handle)].rights, required); }
    hide TokenValid, MakeHandle, HandleCap, Subset, Handles.Tested;
  }

  lemma TokenValidIff(keys: seq<Key>, domain: DomainId, handle: nat)
    requires domain < |keys|
    ensures TokenValid(keys, domain, handle) <==> handle == MakeHandle(keys[domain], HandleCap(handle))
  {
    hide Token;
  }

  /** A new key: handles made with it pass, an old one passes exactly when its token is also that of
      the new key, and nothing changes for the other domains. */
  lemma RekeyIff(s: State, domain: DomainId, key: Key, cap: CapId, required: Rights)
    requires Lineage.Tidy(s.g) && domain < HIC_DOMAIN_MAX && 1 <= cap < CAP_TABLE_SIZE
    ensures var t := Step(s, OpRekey(domain, key)).s;
            var good := Live(s.g, cap) && Subset(required, s.g.table[cap].rights);
            && t.g == s.g
            && (Handles.CheckAccess(t, domain, MakeHandle(key, cap), required) == Success <==> good)
            && (Handles.CheckAccess(t, domain, MakeHandle(s.keys[domain], cap), required) == Success
                <==> good && Token(s.keys[domain], cap) == Token(key, cap))
  {
    hide Token, Subset, Handles.Tested, Lineage.Tidy;
    var t := Step(s, OpRekey(domain, key)).s;
    Handles.HandlePassesIff(t, domain, cap, required);
    hide Handles.CheckAccess;
    var former := MakeHandle(s.keys[domain], cap);
    Handles.HandleParts(Token(s.keys[domain], cap), cap);
    if Handles.CheckAccess(t, domain, former, required) == Success {
      OnlyMadePasses(t, domain, former, required);
      Handles.HandleParts(Token(key, cap), cap);
    }
  }

  lemma RekeyOthers(s: State, domain: DomainId, key: Key, other: DomainId, handle: nat, required: Rights)
    requires domain < HIC_DOMAIN_MAX && other < HIC_DOMAIN_MAX && other != domain
    ensures Handles.CheckAccess(Step(s, OpRekey(domain, key)).s, other, handle, required)
            == Handles.CheckAccess(s, other, handle, required)
  {
    hide Token;
  }

  // ---------------------------------------------------------------- transfer

  /** An operation that domain `d` asks for on capability `cap`, as its owner. */
  predicate ActsOn(op: Op, d: DomainId, cap: CapId) {
    match op
    case OpDerive(owner, parent, _) => owner == d && parent == cap
    case OpDeriveWithPolicy(owner, parent, _, _) => owner == d && parent == cap
    case OpTransfer(from, _, c) => from == d && c == cap
    case OpAttenuate(from, _, c, _) => from == d && c == cap
    case OpShmemMap(from, _, c, _) => from == d && c == cap
    case OpShmemUnmap(domain, handle) => domain == d && HandleCap(handle) == cap
    case _ => false
  }

  /** The same asked for by domain `d`. */
  function By(op: Op, d: DomainId): Op {
    match op
    case OpDerive(_, parent, rights) => OpDerive(d, parent, rights)
    case OpDeriveWithPolicy(_, parent, rights, policy) => OpDeriveWithPolicy(d, parent, rights, policy)
    case OpTransfer(_, to, cap) => OpTransfer(d, to, cap)
    case OpAttenuate(_, to, cap, rights) => OpAttenuate(d, to, cap, rights)
    case OpShmemMap(_, to, cap, rights) => OpShmemMap(d, to, cap, rights)
    case _ => op
  }

  /** A transfer changes the owner of one entry and nothing else anywhere; every handle passes as it
      did. */
  lemma TransferKeeps(s: State, from: DomainId, to: DomainId, cap: CapId)
    requires Step(s, OpTransfer(from, to, cap)).status == Success
    ensures var t := Step(s, OpTransfer(from, to, cap)).s;
            && cap < CAP_TABLE_SIZE && t.m == s.m && t.keys == s.keys && t.domains == s.domains && t.g.links == s.g.links
            && (forall c :: 0 <= c < CAP_TABLE_SIZE && c != cap ==> t.g.table[c] == s.g.table[c])
            && t.g.table[cap] == s.g.table[cap].(owner := to)
    ensures forall d, handle: nat, required :: 0 <= d < HIC_DOMAIN_MAX ==>
              Handles.CheckAccess(Step(s, OpTransfer(from, to, cap)).s, d, handle, required)
              == Handles.CheckAccess(s, d, handle, required)
  {
    hide Token, HandleCap, Handles.Tested;
  }

  /** After a transfer to another domain whatever the old owner asks for on the capability is refused. */
  lemma TransferEnds(s: State, from: DomainId, to: DomainId, cap: CapId, op: Op)
    requires Lineage.Tidy(s.g) && Step(s, OpTransfer(from, to, cap)).status == Success && from != to
    requires ActsOn(op, from, cap) && Legal(Step(s, OpTransfer(from, to, cap)).s, op)
    ensures Step(Step(s, OpTransfer(from, to, cap)).s, op).status != Success
  {
    hide Step, TokenValid, HandleCap, Lineage.FreeSlot, Subset, PolicyAllowed;
    var t := Step(s, OpTransfer(from, to, cap)).s;
    TransferKeeps(s, from, to, cap);
    Lineage.StepTidy(s, OpTransfer(from, to, cap));
    Lineage.AcceptedIff(t, op);
  }

  /** And whatever the new owner asks for succeeds exactly when it would have for the old one. */
  lemma TransferMoves(s: State, from: DomainId, to: DomainId, cap: CapId, op: Op)
    requires Lineage.Tidy(s.g) && Step(s, OpTransfer(from, to, cap)).status == Success
    requires ActsOn(op, from, cap) && Legal(s, op) && !op.OpShmemUnmap?
    ensures var t := Step(s, OpTransfer(from, to, cap)).s;
            && ActsOn(By(op, to), to, cap) && Legal(t, By(op, to))
            && (Step(t, By(op, to)).status == Success <==> Step(s, op).status == Success)
  {
    var t := Step(s, OpTransfer(from, to, cap)).s;
    TransferKeeps(s, from, to, cap);
    Lineage.StepTidy(s, OpTransfer(from, to, cap));
    Lineage.AcceptedIff(s, OpTransfer(from, to, cap));
    Lineage.AcceptedIff(s, op);
    hide Step;
    Lineage.AcceptedIff(t, By(op, to));
    FreeSlotStays(s.g, t.g, cap);
    hide Lineage.FreeSlot, Subset, PolicyAllowed, Lineage.Tidy;
  }

  lemma FreeSlotStays(g: Graph, h: Graph, cap: CapId)
    requires cap < CAP_TABLE_SIZE && h.table[cap].id == g.table[cap].id
    requires forall c :: 0 <= c < CAP_TABLE_SIZE && c != cap ==> h.table[c] == g.table[c]
    ensures Lineage.FreeSlot(h) <==> Lineage.FreeSlot(g)
  {
    if c :| 1 <= c < CAP_TABLE_SIZE && !Live(g, c) { assert !Live(h, c); }
    if c :| 1 <= c < CAP_TABLE_SIZE && !Live(h, c) { assert !Live(g, c); }
  }

  // ---------------------------------------------------------------- the cached check

  /** The check of the verification processor holds exactly when the handle made for the domain
      passes the access check and an operation asked for by the domain, as owner, is not refused. */
  lemma DirectIff(s: State, a: AmpCache.Ask)
    requires Lineage.Tidy(s.g) && a.domain < HIC_DOMAIN_MAX && 1 <= a.cap < CAP_TABLE_SIZE
    ensures AmpCache.Direct(s.g, a) <==>
            && Handles.CheckAccess(s, a.domain, MakeHandle(s.keys[a.domain], a.cap), a.rights) == Success
            && Step(s, OpTransfer(a.domain, a.domain, a.cap)).status == Success
  {
    hide Step, Handles.CheckAccess, MakeHandle, Subset;
    Handles.HandlePassesIff(s, a.domain, a.cap, a.rights);
    SelfTransferIff(s, a.domain, a.cap);
  }

  /** A live entry that was neither just handed out nor transferred is as it was. */
  lemma EntryKept(s: State, op: Op, c: CapId)
    requires Legal(s, op) && Lineage.Tidy(s.g) && Live(Step(s, op).s.g, c) && c != Step(s, op).cap
    requires !(op.OpTransfer? && op.cap == c)
    ensures Step(s, op).s.g.table[c] == s.g.table[c]
  {
    if Lineage.HandsOut(op) {
      hide Step, Legal;
      var k := Lineage.StepFills(s, op);
    } else if op.OpRevoke? {
      hide RevokeFrom, ReleaseAll;
      if op.cap != 0 { Revocation.RevokeFromSweeps(s.g, op.cap, 0); }
    } else {
      hide DropRef, TokenValid, HandleCap;
    }
  }

  /** How every operation changes what that check decides: it holds of a new capability for its
      recipient and the rights asked for, a transfer moves it from the old owner to the new one, and
      otherwise it is what it was while the capability is there. */
  lemma DirectStepIff(s: State, op: Op, a: AmpCache.Ask)
    requires Legal(s, op) && Lineage.Tidy(s.g) && a.cap >= 1
    ensures var e := Step(s, op);
            && (e.cap != 0 ==> Lineage.Makes(op))
            && (AmpCache.Direct(e.s.g, a) <==>
                  if e.cap == a.cap then a.domain == Recipient(op) && Subset(a.rights, Asked(op))
                  else if op.OpTransfer? && op.cap == a.cap && e.status == Success then
                    a.domain == op.to && AmpCache.Direct(s.g, a.(domain := op.from))
                  else AmpCache.Direct(s.g, a) && Live(e.s.g, a.cap))
  {
    hide Subset, Lineage.Accepted;
    Lineage.AcceptedIff(s, op);
    var e := Step(s, op);
    if e.cap == a.cap {
      hide Step, Legal, Asked, Recipient, Subject;
      HandedOut(s, op);
    } else if op.OpTransfer? && op.cap == a.cap {
      if e.status != Success { assert e.s.g == s.g; }
    } else {
      hide Step, Legal;
      Lineage.StepTidy(s, op);
      if Live(e.s.g, a.cap) { EntryKept(s, op, a.cap); }
    }
  }

  /** After revocation it fails for every domain and right, until the slot is handed out again. */
  lemma DirectGone(s: State, cap: CapId, ops: seq<Op>, a: AmpCache.Ask)
    requires Lineage.Tidy(s.g) && Live(s.g, cap) && a.cap == cap
    requires LegalRun(Revoke(s, cap).s, ops) && Handles.NeverHandedOut(Revoke(s, cap).s, ops, cap)
    ensures !AmpCache.Direct(Run(Revoke(s, cap).s, ops).g, a)
  {
    hide RevokeFrom, ReleaseAll, Run, LegalRun, Handles.NeverHandedOut, Step;
    Revocation.RevokeFromSweeps(s.g, cap, 0);
    Lineage.StepTidy(s, OpRevoke(cap));
    Handles.StepRevoke(s, cap);
    Handles.RunStaysFree(Revoke(s, cap).s, ops, cap);
  }

  // ---------------------------------------------------------------- scheduling policies

  /** What a domain of a level may ask for while no mask is set. */
  predicate LevelAllows(level: Level, p: Policy) {
    level == Core || p == Shared || (level == Privileged && p != Idle)
  }

  lemma DefaultIff(level: Level, p: Policy)
    ensures p in DefaultPolicies(level) <==> LevelAllows(level, p)
  {
  }

  /** Setting a mask takes away just the policies outside it; a mask that would take away all is as
      good as none.  Nothing changes for other domains. */
  lemma SetPoliciesIff(s: State, domain: DomainId, mask: set<Policy>, p: Policy)
    requires domain < MAX_DOMAINS && s.domains[domain].started
    ensures var t := Step(s, OpSetPolicies(domain, mask)).s;
            && (CanCreate(t, domain, p) <==>
                  if exists q :: q in mask && CanCreate(s, domain, q) then p in mask && CanCreate(s, domain, p)
                  else LevelAllows(s.domains[domain].level, p))
            && (forall d :: 0 <= d < MAX_DOMAINS && d != domain ==> (CanCreate(t, d, p) <==> CanCreate(s, d, p)))
  {
    var t := Step(s, OpSetPolicies(domain, mask)).s;
    DefaultIff(s.domains[domain].level, p);
    hide DefaultPolicies, LevelAllows;
    var left := mask * AllowedPolicies(s.domains[domain]);
    assert t.domains[domain].allowed == left;
    if q :| q in mask && CanCreate(s, domain, q) { assert q in left; }
    if left != {} {
      var q :| q in left;
      assert q in mask && CanCreate(s, domain, q);
    }
  }

  /** A domain just started may ask for what its level allows. */
  lemma StartPolicies(s: State, level: Level, p: Policy)
    requires Lineage.DomainsSane(s.domains) && Step(s, OpStartDomain(level)).status == Success
    ensures var d := FirstUnstarted(s.domains, 0); var t := Step(s, OpStartDomain(level)).s;
            d < MAX_DOMAINS && t.domains[d].started && (CanCreate(t, d, p) <==> LevelAllows(level, p))
  {
    hide FirstUnstarted;
    DefaultIff(level, p);
  }

  /** And asking for a logical core under another policy is refused. */
  lemma PolicyRefused(s: State, domain: DomainId, r: Request)
    requires r.CoreCap? && r.policy.Some?
    ensures Step(s, OpCreate(domain, r)).status == Permission <==> !CanCreate(s, domain, r.policy.value)
  {
    hide FirstZero, AllowedPolicies;
  }

  /** The order of the policies: a derived one is the same or comes later in the list. */
  lemma PolicyOrder(parent: Policy, child: Policy)
    ensures PolicyAllowed(parent, child) <==>
            || child == parent || parent == Exclusive || child == Idle || (parent == Quota && child == Shared)
  {
  }

  // ---------------------------------------------------------------- refusals

  /** The domains and the slot an operation names. */
  predicate InRange(op: Op) {
    match op
    case OpDerive(owner, parent, _) => owner < HIC_DOMAIN_MAX && parent < CAP_TABLE_SIZE
    case OpDeriveWithPolicy(owner, parent, _, _) => owner < HIC_DOMAIN_MAX && parent < CAP_TABLE_SIZE
    case OpTransfer(from, to, cap) => from < HIC_DOMAIN_MAX && to < HIC_DOMAIN_MAX && cap < CAP_TABLE_SIZE
    case OpAttenuate(from, to, cap, _) => from < HIC_DOMAIN_MAX && to < HIC_DOMAIN_MAX && cap < CAP_TABLE_SIZE
    case OpShmemMap(from, to, cap, _) => from < HIC_DOMAIN_MAX && to < HIC_DOMAIN_MAX && cap < CAP_TABLE_SIZE
    case OpShmemUnmap(_, handle) => HandleCap(handle) < CAP_TABLE_SIZE
    case OpRevoke(cap) => cap < CAP_TABLE_SIZE
    case _ => true
  }

  /** Why an operation that works on a capability is refused: a name out of range, then no such
      capability, then an owner or rights that do not fit, then no free slot, and last a policy that
      is too strong. */
  lemma RefusedWhy(s: State, op: Op, d: DomainId, cap: CapId)
    requires Legal(s, op) && Lineage.Tidy(s.g) && ActsOn(op, d, cap) && !op.OpShmemUnmap?
    ensures var status := Step(s, op).status;
            var present := InRange(op) && s.g.table[cap].id == cap;
            var fits := present && s.g.table[cap].owner == d && (Lineage.Derived(op) ==> Subset(Asked(op), s.g.table[cap].rights));
            && (status == InvalidParam <==> !InRange(op))
            && (status == CapInvalid <==> InRange(op) && !present)
            && (status == NoMemory <==> fits && Lineage.Derived(op) && !Lineage.FreeSlot(s.g))
            && (status == Permission <==> || (present && !fits)
                                          || (fits && Lineage.FreeSlot(s.g) && op.OpDeriveWithPolicy?
                                              && !PolicyAllowed(s.g.table[cap].res.maxPolicy, op.policy)))
  {
    Lineage.FreeSlotIff(s.g);
    if cap < CAP_TABLE_SIZE && Lineage.Derived(op) { Lineage.RightsTestsAgree(Asked(op), s.g.table[cap].rights); }
    if cap < CAP_TABLE_SIZE { assert !s.g.table[cap].revoked; }
    hide FirstZero, FirstMismatch, Lineage.FreeSlot, Exceeds, Subset, Record, AddRef, PolicyAllowed, Lineage.Tidy;
  }

  /** Why a creation is refused. */
  lemma CreateRefusedWhy(s: State, owner: DomainId, r: Request)
    requires Lineage.Tidy(s.g)
    ensures var status := Step(s, OpCreate(owner, r)).status;
            var may := r.CoreCap? && r.policy.Some? ==> CanCreate(s, owner, r.policy.value);
            && (status == Permission <==> !may)
            && (status == InvalidParam <==> may && owner >= HIC_DOMAIN_MAX)
            && (status == (if r.MemoryCap? then NoMemory else NoResource)
                <==> may && owner < HIC_DOMAIN_MAX && !Lineage.FreeSlot(s.g))
  {
    Lineage.FreeSlotIff(s.g);
    hide FirstZero, FirstMismatch, Lineage.FreeSlot, AllowedPolicies;
  }

  /** Why shared memory is refused, and that a refusal changes nothing: the page run taken is given
      back. */
  lemma AllocRefusedWhy(s: State, owner: DomainId, size: nat, flags: bv32, lent: Option<nat>)
    requires Lineage.Tidy(s.g) && Legal(s, OpShmemAlloc(owner, size, flags, lent))
    ensures var e := Step(s, OpShmemAlloc(owner, size, flags, lent));
            var ok, room := owner < HIC_DOMAIN_MAX && size != 0, FindRegion(s.m.regions, 0, 0) < |s.m.regions|;
            && (e.status == InvalidParam <==> !ok)
            && (e.status == NoResource <==> ok && !room)
            && (e.status == NoMemory <==> ok && room && (lent.None? || !Lineage.FreeSlot(s.g)))
            && (e.status != Success ==> e.s == s)
  {
    Lineage.FreeSlotIff(s.g);
    hide FirstZero, FirstMismatch, Lineage.FreeSlot, FindRegion, Pages, ShmemRights;
    if lent.Some? {
      var taken := s.m.frames[lent.value := Pages(size)];
      assert taken - {lent.value} == s.m.frames;
    }
  }

  /** What an allocation records of its region. */
  lemma AllocRecords(s: State, owner: DomainId, size: nat, flags: bv32, lent: Option<nat>)
    requires Legal(s, OpShmemAlloc(owner, size, flags, lent))
    requires Step(s, OpShmemAlloc(owner, size, flags, lent)).status == Success
    ensures var t := Step(s, OpShmemAlloc(owner, size, flags, lent)).s; var i := FindRegion(s.m.regions, 0, 0);
            && lent.Some? && i < |s.m.regions| && t.m.frames == s.m.frames[lent.value := Pages(size)]
            && t.m.regions == s.m.regions[i := Region(lent.value, Pages(size) * PAGE_SIZE % U32, owner, 1, flags)]
  {
    hide FirstZero, Pages, ShmemRights;
  }

  /** Why a revocation is refused. */
  lemma RevokeRefusedWhy(s: State, cap: CapId)
    requires Lineage.Tidy(s.g)
    ensures var e := Step(s, OpRevoke(cap));
            && (e.status == InvalidParam <==> cap >= CAP_TABLE_SIZE)
            && (e.status == CapInvalid <==> cap < CAP_TABLE_SIZE && !Live(s.g, cap))
            && (e.status != Success ==> e.s == s)
  {
    hide RevokeFrom, ReleaseAll;
  }

  /** Why an unmapping is refused: the handle must be the one made for the domain. */
  lemma UnmapRefusedWhy(s: State, domain: DomainId, handle: nat)
    requires domain < HIC_DOMAIN_MAX
    ensures var e, cap := Step(s, OpShmemUnmap(domain, handle)), HandleCap(handle);
            && (e.status == InvalidParam <==> cap >= CAP_TABLE_SIZE)
            && (e.status == CapInvalid <==> cap < CAP_TABLE_SIZE && handle != MakeHandle(s.keys[domain], cap))
            && (e.status == Permission <==>
                  cap < CAP_TABLE_SIZE && handle == MakeHandle(s.keys[domain], cap) && s.g.table[cap].owner != domain)
            && (e.status != Success ==> e.s == s)
  {
    TokenValidIff(s.keys, domain, handle);
    hide TokenValid, MakeHandle, HandleCap, DropRef;
  }
}
