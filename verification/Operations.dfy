/** The operations on the whole state, and runs of them. */
module Operations {
  import opened Capability

  /** What an operation leaves behind: the state, its status, and the slot it handed out (0: none). */
  datatype Effect = Effect(s: State, status: Status, cap: CapId)

  /** An operation that touches the capability tables only. */
  function OnGraph(s: State, o: Outcome): Effect {
    Effect(s.(g := o.g), o.status, o.cap)
  }

  /** `cap_revoke` */
  function Revoke(s: State, cap: CapId): Effect {
    if cap == HIC_CAP_INVALID then Effect(s, CapInvalid, 0)
    else if cap >= CAP_TABLE_SIZE then Effect(s, InvalidParam, 0)
    else if s.g.table[cap].id != cap then Effect(s, CapInvalid, 0)
    else if s.g.table[cap].revoked then Effect(s, Success, 0)
    else
      var w := RevokeFrom(s.g, cap, 0);
      Effect(s.(g := w.g, m := ReleaseAll(s.m, s.g, w.freed)), Success, 0)
  }

  /** `shmem_alloc`; `lent` is the answer of the physical memory manager. */
  function ShmemAlloc(s: State, owner: DomainId, size: nat, flags: bv32, lent: Option<nat>): Effect {
    var i := FindRegion(s.m.regions, 0, 0);
    var pages := Pages(size);
    if owner >= HIC_DOMAIN_MAX || size == 0 then Effect(s, InvalidParam, 0)
    else if i == |s.m.regions| then Effect(s, NoResource, 0)
    else if lent.None? then Effect(s, NoMemory, 0)
    else
      var base, bytes := lent.value, pages * PAGE_SIZE % U32;
      var taken := s.m.(frames := s.m.frames[base := pages]);
      var o := Create(s.g, owner, ShmemRights(flags), Memory(base, bytes), NoMemory);
      if o.status != Success then Effect(s.(m := FreeFrames(taken, base, pages)), o.status, 0)
      else
        Effect(s.(g := o.g, m := taken.(regions := s.m.regions[i := Region(base, bytes, owner, 1, flags)])),
               Success, o.cap)
  }

  function ShmemRights(flags: bv32): Rights {
    if flags & 1 != 0 then CAP_MEM_READ | CAP_MEM_WRITE else CAP_MEM_READ
  }

  /** Add a reference to the first region with this base, if any. */
  function AddRef(m: Shm, base: nat): Shm {
    var i := FindRegion(m.regions, base, 0);
    if i == |m.regions| then m
    else m.(regions := m.regions[i := m.regions[i].(refs := (m.regions[i].refs + 1) % U32)])
  }

  /** `shmem_map` */
  function ShmemMap(s: State, from: DomainId, to: DomainId, cap: CapId, rights: Rights): Effect {
    if from >= HIC_DOMAIN_MAX || to >= HIC_DOMAIN_MAX || cap >= CAP_TABLE_SIZE then Effect(s, InvalidParam, 0)
    else if s.g.table[cap].id != cap || s.g.table[cap].revoked then Effect(s, CapInvalid, 0)
    else if s.g.table[cap].owner != from then Effect(s, Permission, 0)
    else if !Subset(rights, s.g.table[cap].rights) then Effect(s, Permission, 0)
    else
      var o := Attenuate(s.g, from, to, cap, rights);
      if o.status != Success then OnGraph(s, o)
      else Effect(s.(g := o.g, m := AddRef(s.m, BaseOf(s.g.table[cap]))), Success, o.cap)
  }

  /** Take a reference from the first region with this base; the last one returns its frames. */
  function DropRef(m: Shm, base: nat): Shm {
    var i := FindRegion(m.regions, base, 0);
    if i == |m.regions| then m
    else
      var r := m.regions[i];
      if r.refs > 1 then m.(regions := m.regions[i := r.(refs := r.refs - 1)])
      else FreeFrames(m, r.base, Pages(r.size)).(regions := m.regions[i := r.(base := 0, refs := 0)])
  }

  /** `shmem_unmap`: note that nothing checks that the slot still holds a capability. */
  function ShmemUnmap(s: State, domain: DomainId, handle: nat): Effect
    requires domain < HIC_DOMAIN_MAX
  {
    var cap := HandleCap(handle);
    if cap >= CAP_TABLE_SIZE then Effect(s, InvalidParam, 0)
    else if !TokenValid(s.keys, domain, handle) then Effect(s, CapInvalid, 0)
    else if s.g.table[cap].owner != domain then Effect(s, Permission, 0)
    else
      Effect(s.(g := s.g.(table := s.g.table[cap := Cleared(s.g.table[cap])]),
                m := DropRef(s.m, BaseOf(s.g.table[cap]))), Success, 0)
  }

  // ---------------------------------------------------------------- scheduling policies of domains

  function DefaultPolicies(level: Level): set<Policy> {
    match level
    case Core => {Exclusive, Quota, Shared, Idle}
    case Privileged => {Exclusive, Quota, Shared}
    case Application => {Shared}
  }

  /** `domain_get_allowed_sched_policies`: an empty mask falls back to the default of the level. */
  function AllowedPolicies(d: Domain): set<Policy> {
    if d.allowed != {} then d.allowed else DefaultPolicies(d.level)
  }

  /** `domain_can_create_sched_policy` */
  predicate CanCreate(s: State, domain: DomainId, policy: Policy) {
    domain < MAX_DOMAINS && policy in AllowedPolicies(s.domains[domain])
  }

  /** `domain_set_sched_policies` */
  function SetPolicies(s: State, domain: DomainId, mask: set<Policy>): Effect {
    if domain >= MAX_DOMAINS || !s.domains[domain].started then Effect(s, InvalidParam, 0)
    else
      var d := s.domains[domain];
      Effect(s.(domains := s.domains[domain := d.(allowed := mask * AllowedPolicies(d))]), Success, 0)
  }

  /** The policy part of `domain_create`: the first row never started gets its level and mask. */
  function StartDomain(s: State, level: Level): Effect {
    var i := FirstUnstarted(s.domains, 0);
    if i == MAX_DOMAINS then Effect(s, NoResource, 0)
    else
      var d := s.domains[i].(started := true, level := level);
      Effect(s.(domains := s.domains[i := d.(allowed := AllowedPolicies(d))]), Success, 0)
  }

  function FirstUnstarted(ds: seq<Domain>, from: nat): (i: nat)
    requires from <= |ds|
    ensures from <= i <= |ds|
    ensures i < |ds| ==> !ds[i].started
    ensures forall j :: from <= j < i ==> ds[j].started
    decreases |ds| - from
  {
    if from == |ds| || !ds[from].started then from else FirstUnstarted(ds, from + 1)
  }

  // ---------------------------------------------------------------- steps and runs

  /** What a creation asks for; a logical core may name its policy. */
  datatype Request =
    | MemoryCap(base: nat, size: nat, memoryRights: Rights)
    | ThreadCap(thread: nat)
    | CNodeCap(node: nat)
    | CoreCap(core: nat, coreFlags: nat, quota: nat, coreRights: Rights, policy: Option<Policy>)
  {
    function Rights(): Rights {
      match this
      case MemoryCap(_, _, rights) => rights
      case ThreadCap(_) => CAP_TYPE_THREAD
      case CNodeCap(_) => CAP_CNODE
      case CoreCap(_, _, _, rights, _) => rights
    }

    function Resource(): Resource {
      match this
      case MemoryCap(base, size, _) => Memory(base, size)
      case ThreadCap(thread) => Thread(thread)
      case CNodeCap(node) => CNode(node)
      case CoreCap(core, flags, quota, _, policy) =>
        var p := if policy.Some? then policy.value else Shared;
        LogicalCore(core, flags, quota, p, p)
    }

    /** What is reported when no slot is free. */
    function Full(): Status {
      if MemoryCap? then NoMemory else NoResource
    }
  }

  datatype Op =
    | OpCreate(owner: DomainId, request: Request)
    | OpDerive(owner: DomainId, parent: CapId, rights: Rights)
    | OpDeriveWithPolicy(owner: DomainId, parent: CapId, rights: Rights, policy: Policy)
    | OpTransfer(from: DomainId, to: DomainId, cap: CapId)
    | OpAttenuate(from: DomainId, to: DomainId, cap: CapId, rights: Rights)
    | OpRevoke(cap: CapId)
    | OpShmemAlloc(owner: DomainId, size: nat, flags: bv32, lent: Option<nat>)
    | OpShmemMap(from: DomainId, to: DomainId, cap: CapId, rights: Rights)
    | OpShmemUnmap(domain: DomainId, handle: nat)
    | OpRekey(domain: DomainId, key: Key)
    | OpStartDomain(level: Level)
    | OpSetPolicies(domain: DomainId, mask: set<Policy>)

  /** What the code demands of its callers: a domain with a key, a logical core where a policy is
      attenuated, and page runs that are not lent out twice. */
  predicate Legal(s: State, op: Op) {
    match op
    case OpShmemUnmap(domain, _) => domain < HIC_DOMAIN_MAX
    case OpDeriveWithPolicy(_, parent, _, _) => parent < CAP_TABLE_SIZE ==> s.g.table[parent].res.LogicalCore?
    case OpShmemAlloc(_, size, _, lent) =>
      lent.Some? ==> lent.value != 0 && lent.value !in s.m.frames && Pages(size) != 0
    case _ => true
  }

  function Step(s: State, op: Op): Effect
    requires Legal(s, op)
  {
    match op
    case OpCreate(owner, r) =>
      if r.CoreCap? && r.policy.Some? && !CanCreate(s, owner, r.policy.value) then Effect(s, Permission, 0)
      else OnGraph(s, Create(s.g, owner, r.Rights(), r.Resource(), r.Full()))
    case OpDerive(owner, parent, rights) => OnGraph(s, Derive(s.g, owner, parent, rights))
    case OpDeriveWithPolicy(owner, parent, rights, policy) =>
      OnGraph(s, DeriveWithPolicy(s.g, owner, parent, rights, policy))
    case OpTransfer(from, to, cap) => OnGraph(s, Transfer(s.g, from, to, cap))
    case OpAttenuate(from, to, cap, rights) => OnGraph(s, Attenuate(s.g, from, to, cap, rights))
    case OpRevoke(cap) => Revoke(s, cap)
    case OpShmemAlloc(owner, size, flags, lent) => ShmemAlloc(s, owner, size, flags, lent)
    case OpShmemMap(from, to, cap, rights) => ShmemMap(s, from, to, cap, rights)
    case OpShmemUnmap(domain, handle) => ShmemUnmap(s, domain, handle)
    case OpRekey(domain, key) =>
      if domain >= HIC_DOMAIN_MAX then Effect(s, InvalidParam, 0)
      else Effect(s.(keys := s.keys[domain := key]), Success, 0)
    case OpStartDomain(level) => StartDomain(s, level)
    case OpSetPolicies(domain, mask) => SetPolicies(s, domain, mask)
  }

  /** Every operation of the run is legal when its turn comes. */
  predicate LegalRun(s: State, ops: seq<Op>)
    decreases |ops|
  {
    ops == [] || (Legal(s, ops[0]) && LegalRun(Step(s, ops[0]).s, ops[1..]))
  }

  function Run(s: State, ops: seq<Op>): State
    requires LegalRun(s, ops)
    decreases |ops|
  {
    if ops == [] then s else Run(Step(s, ops[0]).s, ops[1..])
  }

  lemma RunCons(s: State, op: Op, rest: seq<Op>)
    requires Legal(s, op) && LegalRun(Step(s, op).s, rest)
    ensures LegalRun(s, [op] + rest) && Run(s, [op] + rest) == Run(Step(s, op).s, rest)
  {
    hide Step, Legal;
    assert ([op] + rest)[1..] == rest;
  }
}
