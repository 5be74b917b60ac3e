/** The capability system in place: the tables as arrays, each operation as the code performs it,
    and its result equal to the function of the same name. */
module CapSystem {
  import opened Capability
  import opened Operations

  // ---------------------------------------------------------------- facts about the functions

  /** Revocation never touches what a slot names. */
  ghost predicate SameRes(g: Graph, h: Graph) {
    forall x :: 0 <= x < CAP_TABLE_SIZE ==> h.table[x].res == g.table[x].res
  }

  lemma {:induction false} RevokeFromSameRes(g: Graph, cap: CapId, depth: nat)
    ensures SameRes(g, RevokeFrom(g, cap, depth).g)
    decreases REVOKE_MAX_DEPTH + 1 - depth, MAX_DERIVATIVES + 1
  {
    hide Unlink;
    if depth <= REVOKE_MAX_DEPTH && cap < CAP_TABLE_SIZE && g.table[cap].id == cap && !g.table[cap].revoked {
      RevokeChildrenSameRes(Mark(g, cap), cap, 0, depth);
    }
  }

  lemma {:induction false} RevokeChildrenSameRes(g: Graph, cap: CapId, i: nat, depth: nat)
    requires cap < CAP_TABLE_SIZE && depth <= REVOKE_MAX_DEPTH
    ensures SameRes(g, RevokeChildren(g, cap, i, depth).g)
    decreases REVOKE_MAX_DEPTH + 1 - depth, MAX_DERIVATIVES - i
  {
    hide RevokeFrom;
    if i < |g.links[cap].children| && i < MAX_DERIVATIVES {
      var child := g.links[cap].children[i];
      if child != HIC_CAP_INVALID && child < CAP_TABLE_SIZE && !g.table[child].revoked {
        RevokeFromSameRes(g, child, depth + 1);
        RevokeChildrenSameRes(RevokeFrom(g, child, depth + 1).g, cap, i + 1, depth);
      } else {
        RevokeChildrenSameRes(g, cap, i + 1, depth);
      }
    }
  }

  lemma {:induction false} ReleaseAllAppend(m: Shm, g: Graph, h: Graph, a: seq<Slot>, b: seq<Slot>)
    requires SameRes(g, h)
    ensures ReleaseAll(ReleaseAll(m, g, a), h, b) == ReleaseAll(m, g, a + b)
    decreases |b|
  {
    hide Release;
    if b == [] {
      assert a + b == a;
    } else {
      var c := a + b;
      assert c[..|c| - 1] == a + b[..|b| - 1];
      ReleaseAllAppend(m, g, h, a, b[..|b| - 1]);
    }
  }

  lemma ReleaseNone(m: Shm, g: Graph)
    ensures ReleaseAll(m, g, []) == m
  {
  }

  lemma SameResSelf(g: Graph)
    ensures SameRes(g, g)
  {
  }

  lemma SameResTrans(g: Graph, h: Graph, k: Graph)
    requires SameRes(g, h) && SameRes(h, k)
    ensures SameRes(g, k)
  {
  }

  /** The child loop that began at `start` stands at index `i` in `now`, having retired `freed`. */
  ghost predicate LoopAt(start: Graph, now: Graph, cap: CapId, i: nat, depth: nat, freed: seq<Slot>)
    requires cap < CAP_TABLE_SIZE && depth <= REVOKE_MAX_DEPTH
  {
    RevokeChildren(start, cap, 0, depth) ==
    Sweep(RevokeChildren(now, cap, i, depth).g, freed + RevokeChildren(now, cap, i, depth).freed)
  }

  lemma LoopStarts(g: Graph, cap: CapId, depth: nat)
    requires cap < CAP_TABLE_SIZE && depth <= REVOKE_MAX_DEPTH
    ensures LoopAt(g, g, cap, 0, depth, [])
  {
  }

  lemma LoopStep(start: Graph, now: Graph, cap: CapId, i: nat, depth: nat, freed: seq<Slot>)
    requires cap < CAP_TABLE_SIZE && depth <= REVOKE_MAX_DEPTH && LoopAt(start, now, cap, i, depth, freed)
    requires i < |now.links[cap].children| && i < MAX_DERIVATIVES
    ensures var child := now.links[cap].children[i];
            if child != HIC_CAP_INVALID && child < CAP_TABLE_SIZE && !now.table[child].revoked
            then var w := RevokeFrom(now, child, depth + 1); LoopAt(start, w.g, cap, i + 1, depth, freed + w.freed)
            else LoopAt(start, now, cap, i + 1, depth, freed)
  {
    hide RevokeFrom;
    var w := RevokeFrom(now, now.links[cap].children[i], depth + 1);
    var rest := RevokeChildren(w.g, cap, i + 1, depth).freed;
    assert freed + (w.freed + rest) == (freed + w.freed) + rest;
  }

  lemma LoopEnds(start: Graph, now: Graph, cap: CapId, i: nat, depth: nat, freed: seq<Slot>)
    requires cap < CAP_TABLE_SIZE && depth <= REVOKE_MAX_DEPTH && LoopAt(start, now, cap, i, depth, freed)
    requires i >= |now.links[cap].children| || i >= MAX_DERIVATIVES
    ensures RevokeChildren(start, cap, 0, depth) == Sweep(now, freed)
  {
    assert freed + [] == freed;
  }

  // ---------------------------------------------------------------- the tables

  class System {
    const table: array<Entry>
    const links: array<Link>
    const regions: array<Region>
    var frames: map<nat, nat>
    var badFree: bool
    var keys: seq<Key>
    var domains: seq<Domain>

    ghost predicate Valid()
      reads this
    {
      && table.Length == CAP_TABLE_SIZE && links.Length == CAP_TABLE_SIZE && regions.Length == MAX_SHMEM_REGIONS
      && |keys| == HIC_DOMAIN_MAX && |domains| == MAX_DOMAINS
    }

    ghost function Slots(): Graph
      requires Valid()
      reads this, table, links
    {
      Capability.Slots(table[..], links[..])
    }

    ghost function Shared(): Shm
      reads this, regions
    {
      Shm(regions[..], frames, badFree)
    }

    ghost function Abs(): State
      requires Valid()
      reads this, table, links, regions
    {
      Tables(Slots(), Shared(), keys, domains)
    }

    constructor (keys: seq<Key>)
      requires |keys| == HIC_DOMAIN_MAX
      ensures Valid() && Abs() == Init(keys) && fresh(table) && fresh(links) && fresh(regions)
    {
      table := new Entry[CAP_TABLE_SIZE](i => Entry(0, 0, 0, false, Memory(0, 0)));
      links := new Link[CAP_TABLE_SIZE](i => Link(0, []));
      regions := new Region[MAX_SHMEM_REGIONS](i => Region(0, 0, 0, 0, 0));
      frames, badFree, this.keys := map[], false, keys;
      domains := seq(MAX_DOMAINS, i => Domain(false, Core, {}));
      new;
      assert Abs().g == Init(keys).g && Abs().m == Init(keys).m && Abs().domains == Init(keys).domains;
    }

    /** The search of `cap_create_memory`: it starts at slot 0, but finding slot 0 reads as not
        having found anything. */
    method FindZero() returns (cap: CapId)
      requires Valid()
      ensures cap == FirstZero(table[..], 1)
    {
      cap := HIC_CAP_INVALID;
      var i := 0;
      while i < CAP_TABLE_SIZE && cap == HIC_CAP_INVALID
        invariant 0 <= i <= CAP_TABLE_SIZE
        invariant cap == 0 ==> FirstZero(table[..], 1) == FirstZero(table[..], if i == 0 then 1 else i)
        invariant cap != 0 ==> cap == FirstZero(table[..], 1)
      {
        if table[i].id == 0 || table[i].id == HIC_CAP_INVALID {
          cap := i;
        }
        i := i + 1;
      }
    }

    /** The search of `cap_derive` and of attenuated transfer. */
    method FindMismatch() returns (cap: CapId)
      requires Valid()
      ensures cap == FirstMismatch(table[..], 0)
    {
      cap := HIC_CAP_INVALID;
      var i := 0;
      while i < CAP_TABLE_SIZE
        invariant 0 <= i <= CAP_TABLE_SIZE && cap == 0
        invariant FirstMismatch(table[..], 0) == FirstMismatch(table[..], i)
      {
        if table[i].id != i {
          cap := i;
          break;
        }
        i := i + 1;
      }
    }

    /** `cap_create_memory` */
    method CreateMemory(owner: DomainId, base: nat, size: nat, rights: Rights) returns (status: Status, cap: CapId)
      requires Valid()
      modifies table
      ensures Valid()
      ensures var o := Create(old(Slots()), owner, rights, Memory(base, size), NoMemory);
              Slots() == o.g && status == o.status && cap == o.cap
    {
      if owner >= HIC_DOMAIN_MAX {
        return InvalidParam, 0;
      }
      var c := FindZero();
      if c == HIC_CAP_INVALID {
        return NoMemory, 0;
      }
      table[c] := Entry(c, rights, owner, false, Memory(base, size));
      return Success, c;
    }

    /** `cap_derive` */
    method DeriveCap(owner: DomainId, parent: CapId, sub: Rights) returns (status: Status, cap: CapId)
      requires Valid()
      modifies table, links
      ensures Valid()
      ensures var o := Derive(old(Slots()), owner, parent, sub);
              Slots() == o.g && status == o.status && cap == o.cap
    {
      hide Exceeds, FirstMismatch;
      if owner >= HIC_DOMAIN_MAX || parent >= CAP_TABLE_SIZE {
        return InvalidParam, 0;
      }
      if table[parent].id != parent || table[parent].revoked {
        return CapInvalid, 0;
      }
      if table[parent].owner != owner || Exceeds(sub, table[parent].rights) {
        return Permission, 0;
      }
      var c := FindMismatch();
      if c == HIC_CAP_INVALID {
        return NoMemory, 0;
      }
      table[c] := Entry(c, sub, owner, false, table[parent].res);
      if |links[parent].children| < MAX_DERIVATIVES {
        links[parent] := links[parent].(children := links[parent].children + [c]);
        links[c] := links[c].(parent := parent);
      }
      return Success, c;
    }

    /** `cap_transfer_with_attenuation` */
    method AttenuateCap(from: DomainId, to: DomainId, cap: CapId, rights: Rights) returns (status: Status, newCap: CapId)
      requires Valid()
      modifies table, links
      ensures Valid()
      ensures var o := Attenuate(old(Slots()), from, to, cap, rights);
              Slots() == o.g && status == o.status && newCap == o.cap
    {
      hide Subset, FirstMismatch;
      if from >= HIC_DOMAIN_MAX || to >= HIC_DOMAIN_MAX || cap >= CAP_TABLE_SIZE {
        return InvalidParam, 0;
      }
      if table[cap].id != cap {
        return CapInvalid, 0;
      }
      if table[cap].owner != from || !Subset(rights, table[cap].rights) {
        return Permission, 0;
      }
      var c := FindMismatch();
      if c == HIC_CAP_INVALID {
        return NoMemory, 0;
      }
      table[c] := Entry(c, rights, to, false, table[cap].res);
      if |links[cap].children| < MAX_DERIVATIVES {
        links[cap] := links[cap].(children := links[cap].children + [c]);
      }
      return Success, c;
    }

    /** The first region with this base, as every loop over the regions finds it. */
    method RegionAt(base: nat) returns (i: nat)
      requires Valid()
      ensures i == FindRegion(regions[..], base, 0) && i <= MAX_SHMEM_REGIONS
    {
      i := 0;
      while i < MAX_SHMEM_REGIONS && regions[i].base != base
        invariant 0 <= i <= MAX_SHMEM_REGIONS
        invariant FindRegion(regions[..], base, 0) == FindRegion(regions[..], base, i)
      {
        i := i + 1;
      }
    }

    /** `pmm_free_frames`, on the record of runs lent out. */
    method FreeRun(base: nat, pages: nat)
      modifies this`frames, this`badFree
      ensures Shared() == FreeFrames(old(Shared()), base, pages)
    {
      if base in frames && frames[base] == pages {
        frames := frames - {base};
      } else {
        badFree := true;
      }
    }

    /** `cap_release_shmem_if_needed` */
    method ReleaseShmem(cap: CapId)
      requires Valid() && cap < CAP_TABLE_SIZE
      modifies this`frames, this`badFree, regions
      ensures Valid() && Shared() == Release(old(Shared()), table[cap].res)
    {
      hide FindRegion, Pages;
      var res := table[cap].res;
      if !res.Memory? || res.base == 0 || res.size == 0 {
        return;
      }
      var i := RegionAt(res.base);
      if i < MAX_SHMEM_REGIONS && regions[i].refs > 0 {
        regions[i] := regions[i].(refs := regions[i].refs - 1);
        if regions[i].refs == 0 {
          FreeRun(regions[i].base, Pages(regions[i].size));
          regions[i] := regions[i].(base := 0, size := 0);
        }
      }
    }

    /** Take `cap` out of the child list of its parent by overwriting it with the last child. */
    method UnlinkFromParent(cap: CapId)
      requires Valid() && cap < CAP_TABLE_SIZE
      modifies links
      ensures Valid() && links[..] == Unlink(old(links[..]), cap)
    {
      var parent := links[cap].parent;
      if parent == HIC_CAP_INVALID || parent >= CAP_TABLE_SIZE {
        return;
      }
      var cs := links[parent].children;
      var i := 0;
      while i < |cs|
        invariant 0 <= i <= |cs| && cs == links[parent].children
        invariant forall j :: 0 <= j < i ==> cs[j] != cap
        invariant links[..] == old(links[..])
      {
        if cs[i] == cap {
          links[parent] := links[parent].(children := cs[i := cs[|cs| - 1]][..|cs| - 1]);
          return;
        }
        i := i + 1;
      }
    }

    /** The closing steps of `cap_revoke_recursive_impl`. */
    method RetireSlot(cap: CapId)
      requires Valid() && cap < CAP_TABLE_SIZE
      modifies this`frames, this`badFree, table, links, regions
      ensures Valid() && Slots() == Retire(old(Slots()), cap)
      ensures Shared() == Release(old(Shared()), old(table[cap].res))
    {
      hide Release, Unlink;
      ReleaseShmem(cap);
      UnlinkFromParent(cap);
      links[cap] := Link(HIC_CAP_INVALID, []);
      table[cap] := Entry(0, 0, 0, false, table[cap].res);
    }

    /** The child loop of `cap_revoke_recursive_impl`.  Nested calls edit the list it walks. */
    method RevokeChildList(cap: CapId, depth: nat) returns (ghost freed: seq<Slot>)
      requires Valid() && cap < CAP_TABLE_SIZE && depth <= REVOKE_MAX_DEPTH
      modifies this`frames, this`badFree, table, links, regions
      ensures Valid() && Sweep(Slots(), freed) == RevokeChildren(old(Slots()), cap, 0, depth)
      ensures Shared() == ReleaseAll(old(Shared()), old(Slots()), freed)
      decreases REVOKE_MAX_DEPTH + 1 - depth, 0
    {
      hide RevokeFrom, RevokeChildren, ReleaseAll, LoopAt, SameRes;
      freed := [];
      var i := 0;
      LoopStarts(Slots(), cap, depth);
      ReleaseNone(Shared(), Slots());
      SameResSelf(Slots());
      while i < |links[cap].children| && i < MAX_DERIVATIVES
        invariant Valid() && i <= MAX_DERIVATIVES
        invariant LoopAt(old(Slots()), Slots(), cap, i, depth, freed)
        invariant SameRes(old(Slots()), Slots())
        invariant Shared() == ReleaseAll(old(Shared()), old(Slots()), freed)
        decreases MAX_DERIVATIVES - i
      {
        var child := links[cap].children[i];
        LoopStep(old(Slots()), Slots(), cap, i, depth, freed);
        if child != HIC_CAP_INVALID && child < CAP_TABLE_SIZE {
          if !table[child].revoked {
            ghost var before := Slots();
            ghost var more := RevokeRecursive(child, depth + 1);
            RevokeFromSameRes(before, child, depth + 1);
            SameResTrans(old(Slots()), before, Slots());
            ReleaseAllAppend(old(Shared()), old(Slots()), before, freed, more);
            freed := freed + more;
          }
        }
        i := i + 1;
      }
      LoopEnds(old(Slots()), Slots(), cap, i, depth, freed);
    }

    /** `cap_revoke_recursive_impl`; `freed` lists the slots it retired. */
    method RevokeRecursive(cap: CapId, depth: nat) returns (ghost freed: seq<Slot>)
      requires Valid()
      modifies this`frames, this`badFree, table, links, regions
      ensures Valid() && Sweep(Slots(), freed) == RevokeFrom(old(Slots()), cap, depth)
      ensures Shared() == ReleaseAll(old(Shared()), old(Slots()), freed)
      decreases REVOKE_MAX_DEPTH + 1 - depth, 1
    {
      hide Release, Retire, RevokeChildren;
      freed := [];
      if depth > REVOKE_MAX_DEPTH || cap >= CAP_TABLE_SIZE || table[cap].id != cap || table[cap].revoked {
        return;
      }
      table[cap] := table[cap].(revoked := true);
      ghost var marked := Slots();
      assert marked == Mark(old(Slots()), cap);
      ghost var below := RevokeChildList(cap, depth);
      RevokeChildrenSameRes(marked, cap, 0, depth);
      RetireSlot(cap);
      freed := below + [cap];
      ReleaseAllAppend(old(Shared()), marked, old(Slots()), [], below);
      ReleaseAllAppend(old(Shared()), old(Slots()), old(Slots()), below, [cap]);
      assert [] + below == below;
    }

    /** `cap_revoke` */
    method RevokeCap(cap: CapId) returns (status: Status)
      requires Valid()
      modifies this`frames, this`badFree, table, links, regions
      ensures Valid() && Abs() == Revoke(old(Abs()), cap).s && status == Revoke(old(Abs()), cap).status
    {
      hide RevokeFrom, ReleaseAll;
      if cap == HIC_CAP_INVALID {
        return CapInvalid;
      }
      if cap >= CAP_TABLE_SIZE {
        return InvalidParam;
      }
      if table[cap].id != cap {
        return CapInvalid;
      }
      if table[cap].revoked {
        return Success;
      }
      ghost var freed := RevokeRecursive(cap, 0);
      return Success;
    }

    /** `cap_transfer` */
    method TransferCap(from: DomainId, to: DomainId, cap: CapId) returns (status: Status)
      requires Valid()
      modifies table
      ensures Valid()
      ensures var o := Transfer(old(Slots()), from, to, cap); Slots() == o.g && status == o.status
    {
      if from >= HIC_DOMAIN_MAX || to >= HIC_DOMAIN_MAX || cap >= CAP_TABLE_SIZE {
        return InvalidParam;
      }
      if table[cap].id != cap {
        return CapInvalid;
      }
      if table[cap].owner != from {
        return Permission;
      }
      table[cap] := table[cap].(owner := to);
      return Success;
    }

    /** `cap_derive_with_policy`: a refused policy is rolled back by zeroing the id alone. */
    method DeriveCapWithPolicy(owner: DomainId, parent: CapId, sub: Rights, policy: Policy) returns (status: Status, cap: CapId)
      requires Valid() && (parent < CAP_TABLE_SIZE ==> table[parent].res.LogicalCore?)
      modifies table, links
      ensures Valid()
      ensures var o := DeriveWithPolicy(old(Slots()), owner, parent, sub, policy);
              Slots() == o.g && status == o.status && cap == o.cap
    {
      hide Exceeds, FirstMismatch, Record;
      status, cap := DeriveCap(owner, parent, sub);
      if status != Success {
        return;
      }
      if !PolicyAllowed(table[parent].res.maxPolicy, policy) {
        table[cap] := table[cap].(id := 0);
        return Permission, 0;
      }
      table[cap] := table[cap].(res := table[cap].res.(policy := policy, maxPolicy := policy));
    }

    /** `shmem_alloc`; `lent` is the run the physical memory manager answers with. */
    method AllocShared(owner: DomainId, size: nat, flags: bv32, lent: Option<nat>) returns (status: Status, cap: CapId)
      requires Valid()
      modifies this`frames, this`badFree, table, regions
      ensures Valid()
      ensures var e := ShmemAlloc(old(Abs()), owner, size, flags, lent);
              Abs() == e.s && status == e.status && cap == e.cap
    {
      hide Create, FindRegion, Pages, ShmemRights;
      if owner >= HIC_DOMAIN_MAX || size == 0 {
        return InvalidParam, 0;
      }
      var i := RegionAt(0);
      if i == MAX_SHMEM_REGIONS {
        return NoResource, 0;
      }
      if lent.None? {
        return NoMemory, 0;
      }
      var base, pages := lent.value, Pages(size);
      frames := frames[base := pages];
      var bytes := pages * PAGE_SIZE % U32;
      status, cap := CreateMemory(owner, base, bytes, ShmemRights(flags));
      if status != Success {
        FreeRun(base, pages);
        assert Slots() == old(Slots()) by { CreateRefused(old(Slots()), owner, ShmemRights(flags), Memory(base, bytes)); }
        return status, 0;
      }
      regions[i] := Region(base, bytes, owner, 1, flags);
    }

    /** `shmem_map` */
    method MapShared(from: DomainId, to: DomainId, cap: CapId, rights: Rights) returns (status: Status, newCap: CapId)
      requires Valid()
      modifies table, links, regions
      ensures Valid()
      ensures var e := ShmemMap(old(Abs()), from, to, cap, rights);
              Abs() == e.s && status == e.status && newCap == e.cap
    {
      hide Attenuate, FindRegion, Subset, BaseOf;
      if from >= HIC_DOMAIN_MAX || to >= HIC_DOMAIN_MAX || cap >= CAP_TABLE_SIZE {
        return InvalidParam, 0;
      }
      if table[cap].id != cap || table[cap].revoked {
        return CapInvalid, 0;
      }
      if table[cap].owner != from || !Subset(rights, table[cap].rights) {
        return Permission, 0;
      }
      status, newCap := AttenuateCap(from, to, cap, rights);
      if status == Success {
        AttenuateSource(old(Slots()), from, to, cap, rights);
        var i := RegionAt(BaseOf(table[cap]));
        if i < MAX_SHMEM_REGIONS {
          regions[i] := regions[i].(refs := (regions[i].refs + 1) % U32);
        }
      }
    }

    /** `shmem_unmap` */
    method UnmapShared(domain: DomainId, handle: nat) returns (status: Status)
      requires Valid() && domain < HIC_DOMAIN_MAX
      modifies this`frames, this`badFree, table, regions
      ensures Valid()
      ensures var e := ShmemUnmap(old(Abs()), domain, handle); Abs() == e.s && status == e.status
    {
      hide FindRegion, Pages, TokenValid, HandleCap;
      var cap := HandleCap(handle);
      if cap >= CAP_TABLE_SIZE {
        return InvalidParam;
      }
      if !TokenValid(keys, domain, handle) {
        return CapInvalid;
      }
      if table[cap].owner != domain {
        return Permission;
      }
      var i := RegionAt(BaseOf(table[cap]));
      if i < MAX_SHMEM_REGIONS {
        if regions[i].refs > 0 {
          regions[i] := regions[i].(refs := regions[i].refs - 1);
        }
        if regions[i].refs == 0 {
          FreeRun(regions[i].base, Pages(regions[i].size));
          regions[i] := regions[i].(base := 0);
        }
      }
      table[cap] := Entry(0, 0, 0, false, table[cap].res);
      return Success;
    }
  }

  lemma CreateRefused(g: Graph, owner: DomainId, rights: Rights, res: Resource)
    requires Create(g, owner, rights, res, NoMemory).status != Success
    ensures Create(g, owner, rights, res, NoMemory).g == g
  {
  }

  lemma AttenuateSource(g: Graph, from: DomainId, to: DomainId, cap: CapId, rights: Rights)
    requires cap < CAP_TABLE_SIZE && Attenuate(g, from, to, cap, rights).status == Success
    ensures Attenuate(g, from, to, cap, rights).g.table[cap] == g.table[cap]
  {
    hide Record;
  }
}
