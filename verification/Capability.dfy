/** The state of the Core-0 capability system and the effect of every operation on it.

    Each operation of `capability.c` is a function from a state to an outcome.  The class in
    CapSystem.dfy performs the same operations in place and is proved equal to these functions.

    `HIC_CAP_INVALID` is 0, so slot 0 is never handed out: a search that stops at slot 0 reads as
    "nothing found", and a parent link of 0 reads as "no parent". */
module Capability {

  const CAP_TABLE_SIZE := 2048
  const HIC_DOMAIN_CORE := 0
  const HIC_DOMAIN_MAX := 256
  const MAX_DOMAINS := 128
  const HIC_CAP_INVALID := 0
  const MAX_DERIVATIVES := 16
  const REVOKE_MAX_DEPTH := 16
  const MAX_SHMEM_REGIONS := 64
  const PAGE_SIZE := 4096
  const U32 := 0x1_0000_0000
  const U64 := 0x1_0000_0000_0000_0000

  const CAP_MEM_READ: Rights := 1
  const CAP_MEM_WRITE: Rights := 2
  const CAP_CNODE: Rights := 0x100_0000
  const CAP_TYPE_THREAD: Rights := 0x200_0000

  type Rights = bv32
  type CapId = nat
  type DomainId = nat
  type Slot = c: nat | c < CAP_TABLE_SIZE

  /** Every right in `sub` is also in `all`. */
  predicate Subset(sub: Rights, all: Rights) {
    sub & all == sub
  }

  /** The other way the code asks the same question: some right of `sub` is missing from `all`. */
  predicate Exceeds(sub: Rights, all: Rights) {
    sub & !all != 0
  }

  /** Scheduling policies, strongest first. */
  datatype Policy = Exclusive | Quota | Shared | Idle {
    function Rank(): nat {
      match this
      case Exclusive => 0
      case Quota => 1
      case Shared => 2
      case Idle => 3
    }
  }

  datatype Resource =
    | Memory(base: nat, size: nat)
    | LogicalCore(core: nat, coreFlags: nat, quota: nat, policy: Policy, maxPolicy: Policy)
    | Thread(thread: nat)
    | CNode(node: nat)

  datatype Entry = Entry(id: CapId, rights: Rights, owner: DomainId, revoked: bool, res: Resource)

  /** One row of the derivation table; `children` is the used prefix of the fixed child array. */
  datatype Link = Link(parent: CapId, children: seq<CapId>)

  datatype Region = Region(base: nat, size: nat, owner: DomainId, refs: nat, flags: bv32)

  datatype Key = Key(seed: bv32, multiplier: bv32)

  /** The capability table and, row by row, its derivation links. */
  datatype Slots = Slots(table: seq<Entry>, links: seq<Link>)

  type Graph = g: Slots | |g.table| == CAP_TABLE_SIZE && |g.links| == CAP_TABLE_SIZE
    witness EmptySlots()

  /** Shared memory.  `frames` are the page runs the physical memory manager has lent out, by base
      address; `badFree` records that a run was returned that was not lent out, or at another length. */
  datatype Shm = Shm(regions: seq<Region>, frames: map<nat, nat>, badFree: bool)

  datatype Level = Core | Privileged | Application

  /** What the scheduling-policy checks read of a domain.  Zeroed rows read as level `Core`. */
  datatype Domain = Domain(started: bool, level: Level, allowed: set<Policy>)

  datatype Tables = Tables(g: Graph, m: Shm, keys: seq<Key>, domains: seq<Domain>)

  type State = s: Tables | |s.keys| == HIC_DOMAIN_MAX && |s.domains| == MAX_DOMAINS
    witness Init(seq(HIC_DOMAIN_MAX, i => Key(0, 0)))

  datatype Status =
    | Success | InvalidParam | NoMemory | NoResource | Permission | CapInvalid | CapRevoked

  datatype Option<T> = None | Some(value: T)

  /** `cap` is the capability an operation hands out, 0 when it hands out none. */
  datatype Outcome = Outcome(g: Graph, status: Status, cap: CapId)

  /** The zeroed tables that `capability_system_init` leaves behind. */
  function Init(keys: seq<Key>): (s: Tables)
    requires |keys| == HIC_DOMAIN_MAX
    ensures |s.keys| == HIC_DOMAIN_MAX && |s.domains| == MAX_DOMAINS
  {
    Tables(EmptySlots(), Shm(seq(MAX_SHMEM_REGIONS, i => Region(0, 0, 0, 0, 0)), map[], false), keys,
           seq(MAX_DOMAINS, i => Domain(false, Core, {})))
  }

  function EmptySlots(): (g: Slots)
    ensures |g.table| == CAP_TABLE_SIZE && |g.links| == CAP_TABLE_SIZE
  {
    Slots(seq(CAP_TABLE_SIZE, i => Entry(0, 0, 0, false, Memory(0, 0))), seq(CAP_TABLE_SIZE, i => Link(0, [])))
  }

  /** The capability in slot `c` exists. */
  predicate Live(g: Graph, c: CapId) {
    1 <= c < CAP_TABLE_SIZE && g.table[c].id == c
  }

  // ---------------------------------------------------------------- slot allocation

  /** The first slot from `from` on that holds id 0; 0 when there is none. */
  function FirstZero(t: seq<Entry>, from: nat): (c: CapId)
    requires 1 <= from <= |t|
    ensures c != 0 ==> from <= c < |t| && t[c].id == 0
    ensures forall j :: from <= j < (if c == 0 then |t| else c) ==> t[j].id != 0
    decreases |t| - from
  {
    if from == |t| then 0
    else if t[from].id == 0 then from
    else FirstZero(t, from + 1)
  }

  /** The first slot from `from` on that does not hold its own number; 0 when there is none. */
  function FirstMismatch(t: seq<Entry>, from: nat): (c: CapId)
    requires from <= |t|
    ensures c != 0 ==> from <= c < |t| && t[c].id != c
    ensures c != 0 ==> forall j :: from <= j < c ==> t[j].id == j
    ensures c == 0 ==> (from == 0 && |t| > 0 && t[0].id != 0) || forall j :: from <= j < |t| ==> t[j].id == j
    decreases |t| - from
  {
    if from == |t| then 0
    else if t[from].id != from then from
    else FirstMismatch(t, from + 1)
  }

  // ---------------------------------------------------------------- creation and transfer

  /** Every `cap_create_*`: fill the first slot holding id 0. */
  function Create(g: Graph, owner: DomainId, rights: Rights, res: Resource, full: Status): Outcome {
    if owner >= HIC_DOMAIN_MAX then Outcome(g, InvalidParam, 0)
    else
      var c := FirstZero(g.table, 1);
      if c == 0 then Outcome(g, full, 0)
      else Outcome(g.(table := g.table[c := Entry(c, rights, owner, false, res)]), Success, c)
  }

  /** `cap_transfer`: change the owner in place. */
  function Transfer(g: Graph, from: DomainId, to: DomainId, cap: CapId): Outcome {
    if from >= HIC_DOMAIN_MAX || to >= HIC_DOMAIN_MAX || cap >= CAP_TABLE_SIZE then
      Outcome(g, InvalidParam, 0)
    else if g.table[cap].id != cap then Outcome(g, CapInvalid, 0)
    else if g.table[cap].owner != from then Outcome(g, Permission, 0)
    else Outcome(g.(table := g.table[cap := g.table[cap].(owner := to)]), Success, 0)
  }

  /** Record `child` in the list of `parent`, as far as the fixed array has room. */
  function Record(l: Link, child: CapId): Link {
    if |l.children| < MAX_DERIVATIVES then l.(children := l.children + [child]) else l
  }

  /** `cap_transfer_with_attenuation`: a new slot, listed under `cap` but with no parent link. */
  function Attenuate(g: Graph, from: DomainId, to: DomainId, cap: CapId, rights: Rights): Outcome {
    if from >= HIC_DOMAIN_MAX || to >= HIC_DOMAIN_MAX || cap >= CAP_TABLE_SIZE then
      Outcome(g, InvalidParam, 0)
    else if g.table[cap].id != cap then Outcome(g, CapInvalid, 0)
    else if g.table[cap].owner != from then Outcome(g, Permission, 0)
    else if !Subset(rights, g.table[cap].rights) then Outcome(g, Permission, 0)
    else
      var c := FirstMismatch(g.table, 0);
      if c == 0 then Outcome(g, NoMemory, 0)
      else
        Outcome(Slots(g.table[c := Entry(c, rights, to, false, g.table[cap].res)],
                      g.links[cap := Record(g.links[cap], c)]), Success, c)
  }

  /** `cap_derive`: a new slot with fewer rights, linked both ways while the list has room. */
  function Derive(g: Graph, owner: DomainId, parent: CapId, sub: Rights): Outcome {
    if owner >= HIC_DOMAIN_MAX || parent >= CAP_TABLE_SIZE then Outcome(g, InvalidParam, 0)
    else if g.table[parent].id != parent || g.table[parent].revoked then Outcome(g, CapInvalid, 0)
    else if g.table[parent].owner != owner then Outcome(g, Permission, 0)
    else if Exceeds(sub, g.table[parent].rights) then Outcome(g, Permission, 0)
    else
      var c := FirstMismatch(g.table, 0);
      if c == 0 then Outcome(g, NoMemory, 0)
      else
        var links :=
          if |g.links[parent].children| < MAX_DERIVATIVES then
            var l := g.links[parent := Record(g.links[parent], c)];
            l[c := l[c].(parent := parent)]
          else g.links;
        Outcome(Slots(g.table[c := Entry(c, sub, owner, false, g.table[parent].res)], links), Success, c)
  }

  /** `domain_check_policy_derivation`: a child may not be stronger than its parent allows. */
  predicate PolicyAllowed(parent: Policy, child: Policy) {
    child.Rank() >= parent.Rank()
  }

  /** `cap_derive_with_policy`, on logical-core capabilities.  A refused policy zeroes the id of
      the new slot and leaves everything else of the derivation in place. */
  function DeriveWithPolicy(g: Graph, owner: DomainId, parent: CapId, sub: Rights, policy: Policy): Outcome
    requires parent < CAP_TABLE_SIZE ==> g.table[parent].res.LogicalCore?
  {
    var d := Derive(g, owner, parent, sub);
    if d.status != Success then d
    else
      var t := d.g.table;
      if !PolicyAllowed(t[parent].res.maxPolicy, policy) then
        Outcome(d.g.(table := t[d.cap := t[d.cap].(id := 0)]), Permission, 0)
      else
        var core := t[d.cap].res.(policy := policy, maxPolicy := policy);
        Outcome(d.g.(table := t[d.cap := t[d.cap].(res := core)]), Success, d.cap)
  }

  // ---------------------------------------------------------------- revocation

  function Cleared(e: Entry): Entry {
    Entry(0, 0, 0, false, e.res)
  }

  /** The position of `c` in the list; its length when absent. */
  function IndexOf(cs: seq<CapId>, c: CapId): (i: nat)
    ensures i <= |cs|
    ensures i < |cs| ==> cs[i] == c
    ensures forall j :: 0 <= j < i ==> cs[j] != c
  {
    if cs == [] then 0
    else if cs[0] == c then 0
    else 1 + IndexOf(cs[1..], c)
  }

  /** Remove `c` by moving the last child into its place. */
  function SwapRemove(cs: seq<CapId>, c: CapId): seq<CapId> {
    var i := IndexOf(cs, c);
    if i == |cs| then cs else cs[i := cs[|cs| - 1]][..|cs| - 1]
  }

  /** Drop `cap` from the child list of its parent, when it has one. */
  function Unlink(links: seq<Link>, cap: CapId): seq<Link>
    requires cap < |links|
  {
    var p := links[cap].parent;
    if p == HIC_CAP_INVALID || p >= |links| then links
    else links[p := links[p].(children := SwapRemove(links[p].children, cap))]
  }

  /** The tail of one revocation: unlink, forget the children, clear the slot. */
  function Retire(g: Graph, cap: CapId): Graph
    requires cap < CAP_TABLE_SIZE
  {
    Slots(g.table[cap := Cleared(g.table[cap])], Unlink(g.links, cap)[cap := Link(0, [])])
  }

  /** A revocation in progress: the tables, and the slots retired so far in their order. */
  datatype Sweep = Sweep(g: Graph, freed: seq<Slot>)

  function Mark(g: Graph, cap: CapId): Graph
    requires cap < CAP_TABLE_SIZE
  {
    g.(table := g.table[cap := g.table[cap].(revoked := true)])
  }

  /** `cap_revoke_recursive_impl` */
  function RevokeFrom(g: Graph, cap: CapId, depth: nat): Sweep
    decreases REVOKE_MAX_DEPTH + 1 - depth, MAX_DERIVATIVES + 1
  {
    if depth > REVOKE_MAX_DEPTH || cap >= CAP_TABLE_SIZE
       || g.table[cap].id != cap || g.table[cap].revoked then Sweep(g, [])
    else
      var w := RevokeChildren(Mark(g, cap), cap, 0, depth);
      Sweep(Retire(w.g, cap), w.freed + [cap])
  }

  /** The loop over the child list, from index `i` on.  The list is read afresh at every index. */
  function RevokeChildren(g: Graph, cap: CapId, i: nat, depth: nat): Sweep
    requires cap < CAP_TABLE_SIZE && depth <= REVOKE_MAX_DEPTH
    decreases REVOKE_MAX_DEPTH + 1 - depth, MAX_DERIVATIVES - i
  {
    if i >= |g.links[cap].children| || i >= MAX_DERIVATIVES then Sweep(g, [])
    else
      var child := g.links[cap].children[i];
      if child != HIC_CAP_INVALID && child < CAP_TABLE_SIZE && !g.table[child].revoked then
        var w := RevokeFrom(g, child, depth + 1);
        var rest := RevokeChildren(w.g, cap, i + 1, depth);
        Sweep(rest.g, w.freed + rest.freed)
      else RevokeChildren(g, cap, i + 1, depth)
  }

  // ---------------------------------------------------------------- shared memory bookkeeping

  /** The address a capability names, 0 when it is not a memory capability. */
  function BaseOf(e: Entry): nat {
    if e.res.Memory? then e.res.base else 0
  }

  /** The first region from `from` on with this base; the table size when there is none. */
  function FindRegion(rs: seq<Region>, base: nat, from: nat): (i: nat)
    requires from <= |rs|
    ensures from <= i <= |rs|
    ensures i < |rs| ==> rs[i].base == base
    ensures forall j :: from <= j < i ==> rs[j].base != base
    decreases |rs| - from
  {
    if from == |rs| || rs[from].base == base then from else FindRegion(rs, base, from + 1)
  }

  /** The pages of a size, as the code computes them: 64-bit sum, 32-bit result. */
  function Pages(size: nat): nat {
    ((size + PAGE_SIZE - 1) % U64 / PAGE_SIZE) % U32
  }

  /** `pmm_free_frames`, as far as the lent-out runs are concerned. */
  function FreeFrames(m: Shm, base: nat, pages: nat): Shm {
    if base in m.frames && m.frames[base] == pages
    then m.(frames := m.frames - {base})
    else m.(badFree := true)
  }

  /** `cap_release_shmem_if_needed` on the resource of a retired capability. */
  function Release(m: Shm, res: Resource): Shm {
    if !res.Memory? || res.base == 0 || res.size == 0 then m
    else
      var i := FindRegion(m.regions, res.base, 0);
      if i == |m.regions| || m.regions[i].refs == 0 then m
      else
        var r := m.regions[i];
        if r.refs > 1 then m.(regions := m.regions[i := r.(refs := r.refs - 1)])
        else FreeFrames(m, r.base, Pages(r.size)).(regions := m.regions[i := r.(base := 0, size := 0, refs := 0)])
  }

  /** The releases of a whole revocation, in the order the slots were retired. */
  function ReleaseAll(m: Shm, g: Graph, freed: seq<Slot>): Shm {
    if freed == [] then m
    else Release(ReleaseAll(m, g, freed[..|freed| - 1]), g.table[freed[|freed| - 1]].res)
  }

  // ---------------------------------------------------------------- handles

  /** The keyed hash of an id, with its top bit set. */
  function TokenBits(k: Key, cap: bv32): bv32 {
    var h0 := (cap * k.multiplier) ^ k.seed;
    var h1 := ((h0 >> 16) ^ h0) * 0x45D9F3B;
    ((h1 >> 16) ^ h1) | 0x8000_0000
  }

  /** `cap_generate_token` */
  function Token(k: Key, cap: CapId): nat
    requires cap < U32
  {
    TokenBits(k, cap as bv32) as nat
  }

  /** `cap_make_handle`: token in the upper half, id in the lower. */
  function MakeHandle(k: Key, cap: CapId): nat
    requires cap < U32
  {
    Token(k, cap) * U32 + cap
  }

  /** `cap_get_cap_id` */
  function HandleCap(handle: nat): (c: CapId)
    ensures c < U32
  {
    handle % U32
  }

  /** `cap_validate_token` on the token half of a handle. */
  predicate TokenValid(keys: seq<Key>, domain: DomainId, handle: nat)
    requires domain < |keys|
  {
    handle / U32 == Token(keys[domain], HandleCap(handle))
  }
}
