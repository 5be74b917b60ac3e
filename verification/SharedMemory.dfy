/** Shared regions: reference counts against the capabilities that exist, and page runs against
    the regions. */
module SharedMemory {
  import opened Capability
  import opened Operations
  import Revocation
  import Handles
  import Lineage

  /** The live capabilities on `base`, leaving out those in `gone`. */
  function Holders(g: Graph, base: nat, gone: set<CapId>): set<CapId> {
    set c: Slot | Live(g, c) && BaseOf(g.table[c]) == base && c !in gone :: c as CapId
  }

  /** Some region stands at this base. */
  predicate Active(m: Shm, base: nat) {
    base != 0 && exists i :: 0 <= i < |m.regions| && m.regions[i].base == base
  }

  /** The count is right.  Every region counts its holders and has at least one; every live memory
      capability stands on a region, unless its base is private; the page runs lent out are those of
      the regions, at their length; and no run was ever returned wrongly.  Slots in `gone` count as
      freed already; `priv` are the bases that are never shared. */
  ghost predicate Counted(m: Shm, g: Graph, gone: set<CapId>, priv: set<nat>) {
    && Apart(m)
    && (forall i :: 0 <= i < |m.regions| && m.regions[i].base != 0 ==>
                      RegionCounted(m, g, gone, m.regions[i]) && m.regions[i].base !in priv)
    && (forall c :: 0 <= c < CAP_TABLE_SIZE && Live(g, c) && c !in gone ==> Backed(m, g.table[c], priv))
    && (forall b :: b in m.frames ==> Active(m, b))
    && !m.badFree
  }

  /** No memory, private memory, or memory of a region. */
  ghost predicate Backed(m: Shm, e: Entry, priv: set<nat>) {
    BaseOf(e) == 0 || BaseOf(e) in priv || (Active(m, BaseOf(e)) && e.res.size != 0)
  }

  /** No two regions stand at one base. */
  ghost predicate Apart(m: Shm) {
    forall i, j :: 0 <= i < j < |m.regions| && m.regions[i].base != 0 ==> m.regions[i].base != m.regions[j].base
  }

  ghost predicate RegionCounted(m: Shm, g: Graph, gone: set<CapId>, r: Region) {
    && r.refs == |Holders(g, r.base, gone)| && r.refs >= 1
    && r.base in m.frames && m.frames[r.base] == Pages(r.size)
  }

  /** `n` is `m` with one reference less at `b`, the region closed and its run returned when it was
      the last one; nothing changes when no region stands at `b`. */
  ghost predicate OneLess(m: Shm, n: Shm, b: nat) {
    if !Active(m, b) then n == m
    else
      var i := FindRegion(m.regions, b, 0);
      && n.badFree == m.badFree && |n.regions| == |m.regions|
      && (forall k :: 0 <= k < |m.regions| && k != i ==> n.regions[k] == m.regions[k])
      && if m.regions[i].refs > 1
         then n.frames == m.frames && n.regions[i] == m.regions[i].(refs := m.regions[i].refs - 1)
         else n.frames == m.frames - {b} && n.regions[i].base == 0
  }

  lemma ReleaseOneLess(m: Shm, g: Graph, gone: set<CapId>, priv: set<nat>, c: CapId)
    requires Counted(m, g, gone, priv) && Live(g, c) && c !in gone
    ensures OneLess(m, Release(m, g.table[c].res), BaseOf(g.table[c]))
  {
    hide Holders, Pages;
    var b := BaseOf(g.table[c]);
    if Active(m, b) { assert RegionCounted(m, g, gone, m.regions[FindRegion(m.regions, b, 0)]); }
  }

  lemma DropRefOneLess(m: Shm, g: Graph, gone: set<CapId>, priv: set<nat>, b: nat)
    requires Counted(m, g, gone, priv) && b != 0
    ensures OneLess(m, DropRef(m, b), b)
  {
    hide Holders, Pages;
    if Active(m, b) { assert RegionCounted(m, g, gone, m.regions[FindRegion(m.regions, b, 0)]); }
  }

  lemma HoldersWithout(g: Graph, gone: set<CapId>, c: CapId)
    requires Live(g, c) && c !in gone
    ensures var b := BaseOf(g.table[c]);
            c in Holders(g, b, gone) && Holders(g, b, gone + {c}) == Holders(g, b, gone) - {c}
    ensures forall d :: d != BaseOf(g.table[c]) ==> Holders(g, d, gone + {c}) == Holders(g, d, gone)
  {
  }

  /** Taking one live capability and one reference out keeps the count. */
  lemma TakeOneCounted(m: Shm, n: Shm, g: Graph, gone: set<CapId>, priv: set<nat>, c: CapId)
    requires Counted(m, g, gone, priv) && Live(g, c) && c !in gone && OneLess(m, n, BaseOf(g.table[c]))
    ensures Counted(n, g, gone + {c}, priv)
  {
    hide Holders, Pages, Active, FindRegion, Apart, OneLess;
    var b := BaseOf(g.table[c]);
    OneLessApart(m, n, b);
    OneLessRegion(m, n, b);
    HoldersWithout(g, gone, c);
    StillActive(m, n, b);
    forall i | 0 <= i < |n.regions| && n.regions[i].base != 0
      ensures RegionCounted(n, g, gone + {c}, n.regions[i])
    {
      assert RegionCounted(m, g, gone, m.regions[i]);
    }
    forall d | 0 <= d < CAP_TABLE_SIZE && Live(g, d) && d !in gone + {c}
      ensures Backed(n, g.table[d], priv)
    {
      assert Backed(m, g.table[d], priv);
      if Active(m, BaseOf(g.table[d])) { OtherHolder(m, n, g, gone, priv, c, d); }
    }
  }

  /** While another capability holds the region, it stays. */
  lemma OtherHolder(m: Shm, n: Shm, g: Graph, gone: set<CapId>, priv: set<nat>, c: CapId, d: CapId)
    requires Counted(m, g, gone, priv) && Live(g, c) && c !in gone && OneLess(m, n, BaseOf(g.table[c]))
    requires Live(g, d) && d !in gone && d != c && Active(m, BaseOf(g.table[d]))
    ensures Active(n, BaseOf(g.table[d]))
  {
    hide Pages;
    var b := BaseOf(g.table[d]);
    var i := FindRegion(m.regions, b, 0);
    assert RegionCounted(m, g, gone, m.regions[i]);
    if b == BaseOf(g.table[c]) {
      var hs := Holders(g, b, gone);
      assert d in hs - {c} && c in hs;
      assert |hs| == |hs - {c}| + 1;
    }
    assert n.regions[i].base == b;
  }

  /** Which regions are left. */
  lemma StillActive(m: Shm, n: Shm, b: nat)
    requires OneLess(m, n, b)
    ensures forall d :: Active(n, d) ==> Active(m, d)
    ensures forall d :: Active(m, d) && (d != b || d in n.frames) ==> Active(n, d)
  {
    forall d | Active(n, d)
      ensures Active(m, d)
    {
      var k :| 0 <= k < |n.regions| && n.regions[k].base == d;
      assert m.regions[k].base == d;
    }
    forall d | Active(m, d) && (d != b || d in n.frames)
      ensures Active(n, d)
    {
      var k :| 0 <= k < |m.regions| && m.regions[k].base == d;
      assert n.regions[k].base == d;
    }
  }

  lemma OneLessApart(m: Shm, n: Shm, b: nat)
    requires Apart(m) && OneLess(m, n, b)
    ensures Apart(n)
  {
  }

  /** A region left standing is as before, but for one reference where it stands at `b`. */
  lemma OneLessRegion(m: Shm, n: Shm, b: nat)
    requires Apart(m) && OneLess(m, n, b)
    ensures n.badFree == m.badFree && |n.regions| == |m.regions|
    ensures forall i :: 0 <= i < |n.regions| && n.regions[i].base != 0 ==>
                          if n.regions[i].base == b
                          then m.regions[i].refs > 1 && n.regions[i] == m.regions[i].(refs := m.regions[i].refs - 1) && n.frames == m.frames
                          else n.regions[i] == m.regions[i] && (n.frames == m.frames || n.frames == m.frames - {b})
    ensures forall d :: d in n.frames ==> d in m.frames
  {
  }

  // ---------------------------------------------------------------- changes of the table

  /** The capabilities of `h` are those of `g` without `gone`. */
  ghost predicate Loses(g: Graph, h: Graph, gone: set<CapId>) {
    forall c :: 0 <= c < CAP_TABLE_SIZE ==>
                  && (Live(h, c) <==> Live(g, c) && c !in gone)
                  && (Live(h, c) ==> h.table[c].res == g.table[c].res)
  }

  lemma LosesHolders(g: Graph, h: Graph, gone: set<CapId>, b: nat)
    requires Loses(g, h, gone)
    ensures Holders(h, b, {}) == Holders(g, b, gone)
  {
  }

  lemma LosesCounted(m: Shm, g: Graph, h: Graph, gone: set<CapId>, priv: set<nat>)
    requires Loses(g, h, gone)
    ensures Counted(m, h, {}, priv) <==> Counted(m, g, gone, priv)
  {
    hide Holders, Active, Apart;
    forall b: nat
      ensures Holders(h, b, {}) == Holders(g, b, gone)
    {
      LosesHolders(g, h, gone, b);
    }
    assert forall r: Region :: RegionCounted(m, h, {}, r) == RegionCounted(m, g, gone, r);
  }

  /** One capability more in `h`, in a slot that was free. */
  ghost predicate Gains(g: Graph, h: Graph, c: CapId) {
    && 1 <= c < CAP_TABLE_SIZE && !Live(g, c) && Live(h, c)
    && forall x :: 0 <= x < CAP_TABLE_SIZE && x != c ==>
                     (Live(h, x) <==> Live(g, x)) && (Live(h, x) ==> h.table[x].res == g.table[x].res)
  }

  lemma GainsHolders(g: Graph, h: Graph, c: CapId)
    requires Gains(g, h, c)
    ensures var b := BaseOf(h.table[c]);
            c !in Holders(g, b, {}) && Holders(h, b, {}) == Holders(g, b, {}) + {c}
    ensures forall d :: d != BaseOf(h.table[c]) ==> Holders(h, d, {}) == Holders(g, d, {})
  {
  }

  /** A new capability without a reference of its own: it may name no memory or private memory only. */
  lemma GainsCountedIff(m: Shm, g: Graph, h: Graph, priv: set<nat>, c: CapId)
    requires Counted(m, g, {}, priv) && Gains(g, h, c)
    ensures Counted(m, h, {}, priv) <==> BaseOf(h.table[c]) == 0 || BaseOf(h.table[c]) in priv
  {
    hide Holders, Apart, Pages;
    GainsHolders(g, h, c);
    var b := BaseOf(h.table[c]);
    if b == 0 || b in priv {
      forall i | 0 <= i < |m.regions| && m.regions[i].base != 0
        ensures RegionCounted(m, h, {}, m.regions[i])
      {
        assert RegionCounted(m, g, {}, m.regions[i]);
      }
    } else if Active(m, b) {
      var i :| 0 <= i < |m.regions| && m.regions[i].base == b;
      assert RegionCounted(m, g, {}, m.regions[i]);
      assert !RegionCounted(m, h, {}, m.regions[i]);
    } else {
      assert !Backed(m, h.table[c], priv);
    }
  }

  // ---------------------------------------------------------------- revocation

  ghost function Elements(cs: seq<Slot>): set<CapId> {
    set c | c in cs
  }

  lemma {:induction false} ReleaseAllCounted(m: Shm, g: Graph, priv: set<nat>, freed: seq<Slot>)
    requires Counted(m, g, {}, priv) && Revocation.Distinct(freed) && (forall c :: c in freed ==> Live(g, c))
    ensures Counted(ReleaseAll(m, g, freed), g, Elements(freed), priv)
    decreases |freed|
  {
    hide Counted, Elements, Release, Revocation.Distinct;
    if freed == [] {
      assert Elements(freed) == {} by { NoElements(); }
    } else {
      var front, c := freed[..|freed| - 1], freed[|freed| - 1];
      FrontElements(freed);
      ReleaseAllCounted(m, g, priv, front);
      var n := ReleaseAll(m, g, front);
      ReleaseOneLess(n, g, Elements(front), priv, c);
      TakeOneCounted(n, Release(n, g.table[c].res), g, Elements(front), priv, c);
    }
  }

  lemma NoElements()
    ensures Elements([]) == {}
  {
  }

  lemma FrontElements(freed: seq<Slot>)
    requires freed != [] && Revocation.Distinct(freed)
    ensures var front, c := freed[..|freed| - 1], freed[|freed| - 1];
            && Revocation.Distinct(front) && c !in Elements(front) && Elements(freed) == Elements(front) + {c}
  {
    var front, c := freed[..|freed| - 1], freed[|freed| - 1];
    Revocation.DistinctPlaces(freed);
    Revocation.DistinctPlaces(front);
    assert freed == front + [c];
  }

  /** A revocation, over any links, releases exactly one reference for every capability it frees. */
  lemma RevokeCounted(s: State, priv: set<nat>, cap: CapId)
    requires Counted(s.m, s.g, {}, priv) && Lineage.Tidy(s.g)
    ensures var t := Revoke(s, cap).s; Counted(t.m, t.g, {}, priv)
  {
    hide Counted, RevokeFrom, ReleaseAll, Revocation.Distinct;
    if Live(s.g, cap) {
      var w := RevokeFrom(s.g, cap, 0);
      Revocation.RevokeFromSweeps(s.g, cap, 0);
      ReleaseAllCounted(s.m, s.g, priv, w.freed);
      assert Loses(s.g, w.g, Elements(w.freed));
      LosesCounted(ReleaseAll(s.m, s.g, w.freed), s.g, w.g, Elements(w.freed), priv);
    }
  }

  // ---------------------------------------------------------------- allocation, mapping, unmapping

  /** Sizes are computed in 32 bits: the page count survives just below four gigabytes. */
  lemma PagesSurviveIff(pages: nat)
    requires 0 < pages < U32
    ensures Pages(pages * PAGE_SIZE % U32) == pages <==> pages * PAGE_SIZE < U32
    ensures pages * PAGE_SIZE < U32 ==> pages * PAGE_SIZE % U32 != 0
  {
    if pages * PAGE_SIZE < U32 {
      assert pages * PAGE_SIZE % U32 == pages * PAGE_SIZE;
      assert (pages * PAGE_SIZE + PAGE_SIZE - 1) / PAGE_SIZE == pages;
    } else {
      assert Pages(pages * PAGE_SIZE % U32) <= (U32 - 1 + PAGE_SIZE - 1) / PAGE_SIZE;
    }
  }

  /** The state of shared memory after a region was opened in row `i`. */
  function Opened(m: Shm, i: nat, r: Region, pages: nat): Shm
    requires i < |m.regions|
  {
    m.(frames := m.frames[r.base := pages], regions := m.regions[i := r])
  }

  lemma OpenCountedIff(m: Shm, g: Graph, h: Graph, priv: set<nat>, c: CapId, i: nat, r: Region, pages: nat)
    requires Counted(m, g, {}, priv) && Gains(g, h, c) && h.table[c].res == Memory(r.base, r.size) && r.refs == 1
    requires i < |m.regions| && m.regions[i].base == 0 && r.base != 0 && r.base !in m.frames
    requires 0 < pages < U32 && r.size == pages * PAGE_SIZE % U32
    ensures Counted(Opened(m, i, r, pages), h, {}, priv) <==> pages * PAGE_SIZE < U32 && r.base !in priv
  {
    hide Holders, Pages;
    var n := Opened(m, i, r, pages);
    GainsHolders(g, h, c);
    PagesSurviveIff(pages);
    forall k | 0 <= k < |m.regions| && m.regions[k].base != 0
      ensures m.regions[k].base != r.base
    {
      assert RegionCounted(m, g, {}, m.regions[k]);
    }
    assert n.regions[i] == r;
    OpenActive(m, n, i, r, pages);
    if pages * PAGE_SIZE < U32 && r.base !in priv {
      NoHolders(m, g, priv, r.base);
      forall k | 0 <= k < |n.regions| && n.regions[k].base != 0
        ensures RegionCounted(n, h, {}, n.regions[k])
      {
        if k != i { assert RegionCounted(m, g, {}, m.regions[k]); }
      }
    } else {
      assert !RegionCounted(n, h, {}, n.regions[i]) || n.regions[i].base in priv;
    }
  }

  lemma NoHolders(m: Shm, g: Graph, priv: set<nat>, b: nat)
    requires Counted(m, g, {}, priv) && b != 0 && b !in priv && !Active(m, b)
    ensures Holders(g, b, {}) == {}
  {
    assert forall c :: 0 <= c < CAP_TABLE_SIZE && Live(g, c) ==> Backed(m, g.table[c], priv);
  }

  lemma OpenActive(m: Shm, n: Shm, i: nat, r: Region, pages: nat)
    requires i < |m.regions| && m.regions[i].base == 0 && r.base != 0 && n == Opened(m, i, r, pages)
    ensures forall b :: Active(n, b) <==> Active(m, b) || b == r.base
    ensures Apart(m) && !Active(m, r.base) ==> Apart(n)
  {
    assert n.regions[i].base == r.base;
    forall b | Active(m, b)
      ensures Active(n, b)
    {
      var k :| 0 <= k < |m.regions| && m.regions[k].base == b;
      assert n.regions[k].base == b;
    }
    forall b | Active(n, b) && b != r.base
      ensures Active(m, b)
    {
      var k :| 0 <= k < |n.regions| && n.regions[k].base == b;
      assert m.regions[k].base == b;
    }
  }

  lemma {:induction false} FewHolders(cs: set<CapId>, n: nat)
    requires forall c :: c in cs ==> c < n
    ensures |cs| <= n
    decreases n
  {
    if n > 0 {
      FewHolders(cs - {n - 1}, n - 1);
      if n - 1 in cs { assert |cs| == |cs - {n - 1}| + 1; } else { assert cs - {n - 1} == cs; }
    } else {
      assert cs == {};
    }
  }

  /** What a release leaves of the first region at the base: one reference less, or an empty row and
      the run returned; every other row is as it was. */
  lemma ReleasedRow(m: Shm, res: Resource, i: nat)
    requires res.Memory? && res.base != 0 && res.size != 0 && i < |m.regions| && m.regions[i].refs >= 1
    requires m.regions[i].base == res.base && forall j :: 0 <= j < i ==> m.regions[j].base != res.base
    ensures var n := Release(m, res); var r := m.regions[i];
            && n.regions == m.regions[i := n.regions[i]]
            && n.regions[i] == (if r.refs > 1 then r.(refs := r.refs - 1) else Region(0, 0, r.owner, 0, r.flags))
            && (r.refs > 1 ==> n.frames == m.frames && n.badFree == m.badFree)
            && (r.refs == 1 && res.base in m.frames && m.frames[res.base] == Pages(r.size) ==>
                  n.frames == m.frames - {res.base} && n.badFree == m.badFree)
  {
    hide Pages;
    assert FindRegion(m.regions, res.base, 0) == i;
  }

  /** A mapping adds one holder and one reference. */
  lemma MapCounted(m: Shm, g: Graph, h: Graph, priv: set<nat>, from: CapId, c: CapId)
    requires Counted(m, g, {}, priv) && Gains(g, h, c)
    requires from < CAP_TABLE_SIZE && h.table[c].res == g.table[from].res && (Live(g, from) || BaseOf(g.table[from]) == 0)
    ensures Counted(AddRef(m, BaseOf(h.table[c])), h, {}, priv)
  {
    hide Holders, Pages;
    var b := BaseOf(h.table[c]);
    var n := AddRef(m, b);
    GainsHolders(g, h, c);
    var i := FindRegion(m.regions, b, 0);
    AddRefActive(m, b);
    assert Live(g, from) ==> Backed(m, g.table[from], priv);
    forall k | 0 <= k < |n.regions| && n.regions[k].base != 0
      ensures RegionCounted(n, h, {}, n.regions[k])
    {
      assert RegionCounted(m, g, {}, m.regions[k]);
      if k == i { HoldersBelow(g, b); }
    }
  }

  lemma HoldersBelow(g: Graph, b: nat)
    ensures |Holders(g, b, {})| <= CAP_TABLE_SIZE
  {
    FewHolders(Holders(g, b, {}), CAP_TABLE_SIZE);
  }

  lemma AddRefActive(m: Shm, b: nat)
    ensures forall d :: Active(AddRef(m, b), d) <==> Active(m, d)
    ensures Apart(m) ==> Apart(AddRef(m, b))
  {
    var n := AddRef(m, b);
    assert |n.regions| == |m.regions| && forall k :: 0 <= k < |m.regions| ==> n.regions[k].base == m.regions[k].base;
  }

  /** What an accepted `shmem_unmap` of slot `c` does to the count. */
  predicate UnmapMiscounts(m: Shm, g: Graph, c: CapId)
    requires c < CAP_TABLE_SIZE
  {
    var b := BaseOf(g.table[c]);
    if b != 0 then Active(m, b) && !Live(g, c)
    else
      var i := FindRegion(m.regions, 0, 0);
      i < |m.regions| && m.regions[i].refs <= 1
  }

  /** Unmapping keeps the count unless the slot was dead already while its old region still stands,
      or it names no memory and some row of the region table is free. */
  lemma UnmapCountedIff(m: Shm, g: Graph, priv: set<nat>, c: CapId)
    requires Counted(m, g, {}, priv) && c < CAP_TABLE_SIZE && Lineage.Tidy(g)
    ensures Counted(DropRef(m, BaseOf(g.table[c])), g.(table := g.table[c := Cleared(g.table[c])]), {}, priv)
            <==> !UnmapMiscounts(m, g, c)
  {
    hide Holders, Pages, Counted;
    var b, h := BaseOf(g.table[c]), g.(table := g.table[c := Cleared(g.table[c])]);
    var n := DropRef(m, b);
    var gone := if Live(g, c) then {c} else {};
    assert Loses(g, h, gone);
    LosesCounted(n, g, h, gone, priv);
    if b == 0 {
      DropNothing(m, g, priv, c);
    } else {
      DropRefOneLess(m, g, {}, priv, b);
      if Live(g, c) {
        TakeOneCounted(m, n, g, {}, priv, c);
        assert {} + {c} == gone;
      } else if Active(m, b) {
        OneLessMiscounts(m, n, g, priv, b);
      }
    }
  }

  /** Dropping a reference at base 0 hits a free row of the region table. */
  lemma DropNothing(m: Shm, g: Graph, priv: set<nat>, c: CapId)
    requires Counted(m, g, {}, priv) && c < CAP_TABLE_SIZE && BaseOf(g.table[c]) == 0
    ensures var gone: set<CapId> := if Live(g, c) then {c} else {};
            Counted(DropRef(m, 0), g, gone, priv) <==> !UnmapMiscounts(m, g, c)
  {
    hide Holders, Pages;
    var gone: set<CapId> := if Live(g, c) then {c} else {};
    var n, i := DropRef(m, 0), FindRegion(m.regions, 0, 0);
    if Live(g, c) { HoldersWithout(g, {}, c); assert {} + {c} == gone; }
    assert 0 !in m.frames;
    assert forall k :: 0 <= k < |m.regions| ==> n.regions[k].base == m.regions[k].base;
    assert forall d :: Active(n, d) <==> Active(m, d);
    forall k | 0 <= k < |m.regions| && m.regions[k].base != 0
      ensures n.regions[k] == m.regions[k] && RegionCounted(n, g, gone, n.regions[k])
    {
      assert RegionCounted(m, g, {}, m.regions[k]);
    }
  }

  lemma OneLessMiscounts(m: Shm, n: Shm, g: Graph, priv: set<nat>, b: nat)
    requires Counted(m, g, {}, priv) && Active(m, b) && OneLess(m, n, b)
    ensures !Counted(n, g, {}, priv)
  {
    hide Pages;
    var i := FindRegion(m.regions, b, 0);
    assert RegionCounted(m, g, {}, m.regions[i]);
    if m.regions[i].refs > 1 {
      assert !RegionCounted(n, g, {}, n.regions[i]);
    } else {
      assert Holders(g, b, {}) != {};
      var c :| c in Holders(g, b, {});
      assert !Active(n, b) by { StillActive(m, n, b); }
      assert !Backed(n, g.table[c], priv);
    }
  }

  // ---------------------------------------------------------------- steps and runs

  /** The operation spoils the count. */
  predicate Miscounts(s: State, op: Op, priv: set<nat>)
    requires Legal(s, op)
  {
    match op
    case OpCreate(_, r) =>
      Lineage.Accepted(s, op) && r.MemoryCap? && r.base != 0 && r.base !in priv
    case OpDerive(_, parent, _) =>
      Lineage.Accepted(s, op) && parent < CAP_TABLE_SIZE && Shared(s, parent, priv)
    case OpAttenuate(_, _, cap, _) =>
      Lineage.Accepted(s, op) && cap < CAP_TABLE_SIZE && Shared(s, cap, priv)
    case OpShmemAlloc(_, size, _, lent) =>
      Lineage.Accepted(s, op) && lent.Some? && (Pages(size) * PAGE_SIZE >= U32 || lent.value in priv)
    case OpShmemUnmap(_, handle) =>
      Lineage.Accepted(s, op) && HandleCap(handle) < CAP_TABLE_SIZE && UnmapMiscounts(s.m, s.g, HandleCap(handle))
    case _ => false
  }

  /** The slot names memory that is not private. */
  predicate Shared(s: State, c: CapId, priv: set<nat>)
    requires c < CAP_TABLE_SIZE
  {
    BaseOf(s.g.table[c]) != 0 && BaseOf(s.g.table[c]) !in priv
  }

  /** Exactly those operations spoil it. */
  lemma CountedStepIff(s: State, op: Op, priv: set<nat>)
    requires Legal(s, op) && Lineage.Tidy(s.g) && Counted(s.m, s.g, {}, priv)
    requires BaseOf(s.g.table[0]) == 0
    ensures var t := Step(s, op).s; Counted(t.m, t.g, {}, priv) <==> !Miscounts(s, op, priv)
  {
    hide Counted, Derive, DeriveWithPolicy, Attenuate, RevokeFrom, ReleaseAll, AddRef, DropRef, FirstZero,
      Pages, TokenValid, HandleCap, FirstUnstarted, AllowedPolicies, CanCreate, Lineage.Tidy, UnmapMiscounts,
      Lineage.Accepted;
    Lineage.AcceptedIff(s, op);
    match op
    case OpCreate(owner, r) =>
      if Step(s, op).cap != 0 {
        CreateGains(s.g, owner, r.Rights(), r.Resource(), r.Full());
        GainsCountedIff(s.m, s.g, Step(s, op).s.g, priv, Step(s, op).cap);
      }
    case OpDerive(owner, parent, sub) => DeriveCountedIff(s.m, s.g, priv, owner, parent, sub);
    case OpDeriveWithPolicy(owner, parent, sub, policy) =>
      DeriveWithPolicyCounted(s.m, s.g, priv, owner, parent, sub, policy);
    case OpTransfer(from, to, cap) =>
      assert Loses(s.g, Step(s, op).s.g, {});
      LosesCounted(s.m, s.g, Step(s, op).s.g, {}, priv);
    case OpAttenuate(from, to, cap, rights) => AttenuateCountedIff(s.m, s.g, priv, from, to, cap, rights);
    case OpRevoke(cap) => RevokeCounted(s, priv, cap);
    case OpShmemAlloc(owner, size, flags, lent) => AllocCountedIff(s, op, priv);
    case OpShmemMap(from, to, cap, rights) => MapStepCounted(s, op, priv);
    case OpShmemUnmap(domain, handle) =>
      if HandleCap(handle) < CAP_TABLE_SIZE { UnmapCountedIff(s.m, s.g, priv, HandleCap(handle)); }
    case OpRekey(_, _) =>
    case OpStartDomain(_) =>
    case OpSetPolicies(_, _) =>
  }

  lemma CreateGains(g: Graph, owner: DomainId, rights: Rights, res: Resource, full: Status)
    requires Lineage.Tidy(g) && Create(g, owner, rights, res, full).cap != 0
    ensures var o := Create(g, owner, rights, res, full);
            Gains(g, o.g, o.cap) && o.g.table[o.cap].res == res && o.status == Success
  {
  }

  lemma DeriveCountedIff(m: Shm, g: Graph, priv: set<nat>, owner: DomainId, parent: CapId, sub: Rights)
    requires Lineage.Tidy(g) && Counted(m, g, {}, priv)
    ensures var o := Derive(g, owner, parent, sub);
            && (o.cap != 0 ==> parent < CAP_TABLE_SIZE)
            && (Counted(m, o.g, {}, priv) <==>
                  o.cap == 0 || BaseOf(g.table[parent]) == 0 || BaseOf(g.table[parent]) in priv)
  {
    hide Counted, Record;
    var o := Derive(g, owner, parent, sub);
    if o.cap != 0 {
      assert Gains(g, o.g, o.cap) && o.g.table[o.cap].res == g.table[parent].res;
      GainsCountedIff(m, g, o.g, priv, o.cap);
    }
  }

  lemma DeriveWithPolicyCounted(m: Shm, g: Graph, priv: set<nat>, owner: DomainId, parent: CapId, sub: Rights, policy: Policy)
    requires Lineage.Tidy(g) && Counted(m, g, {}, priv) && (parent < CAP_TABLE_SIZE ==> g.table[parent].res.LogicalCore?)
    ensures Counted(m, DeriveWithPolicy(g, owner, parent, sub, policy).g, {}, priv)
  {
    hide Counted, Record;
    var d, o := Derive(g, owner, parent, sub), DeriveWithPolicy(g, owner, parent, sub, policy);
    if o.cap != 0 {
      assert Gains(g, o.g, o.cap) && o.g.table[o.cap].res.LogicalCore?;
      GainsCountedIff(m, g, o.g, priv, o.cap);
    } else {
      assert Loses(g, o.g, {});
      LosesCounted(m, g, o.g, {}, priv);
    }
  }

  lemma AttenuateGains(g: Graph, from: DomainId, to: DomainId, cap: CapId, rights: Rights)
    requires Lineage.Tidy(g)
    ensures var o := Attenuate(g, from, to, cap, rights);
            && (o.cap == 0 ==> o.g == g) && (o.cap != 0 <==> o.status == Success)
            && (o.cap != 0 ==>
                  && cap < CAP_TABLE_SIZE && g.table[cap].id == cap
                  && Gains(g, o.g, o.cap) && o.g.table[o.cap].res == g.table[cap].res)
  {
    hide Record;
  }

  lemma AttenuateCountedIff(m: Shm, g: Graph, priv: set<nat>, from: DomainId, to: DomainId, cap: CapId, rights: Rights)
    requires Lineage.Tidy(g) && Counted(m, g, {}, priv)
    ensures var o := Attenuate(g, from, to, cap, rights);
            && (o.cap != 0 ==> cap < CAP_TABLE_SIZE)
            && (Counted(m, o.g, {}, priv) <==> o.cap == 0 || BaseOf(g.table[cap]) == 0 || BaseOf(g.table[cap]) in priv)
  {
    hide Counted, Attenuate;
    AttenuateGains(g, from, to, cap, rights);
    var o := Attenuate(g, from, to, cap, rights);
    if o.cap != 0 { GainsCountedIff(m, g, o.g, priv, o.cap); }
  }

  lemma AllocCountedIff(s: State, op: Op, priv: set<nat>)
    requires op.OpShmemAlloc? && Legal(s, op) && Lineage.Tidy(s.g) && Counted(s.m, s.g, {}, priv)
    ensures var t := Step(s, op).s; Counted(t.m, t.g, {}, priv) <==> !Miscounts(s, op, priv)
  {
    hide Counted, Create, FindRegion, Lineage.Accepted, FirstZero;
    Lineage.AcceptedIff(s, op);
    var OpShmemAlloc(owner, size, flags, lent) := op;
    var i, pages := FindRegion(s.m.regions, 0, 0), Pages(size);
    if owner < HIC_DOMAIN_MAX && size != 0 && i < |s.m.regions| && lent.Some? {
      var base, bytes := lent.value, pages * PAGE_SIZE % U32;
      var o := Create(s.g, owner, ShmemRights(flags), Memory(base, bytes), NoMemory);
      if o.cap != 0 {
        CreateGains(s.g, owner, ShmemRights(flags), Memory(base, bytes), NoMemory);
        OpenCountedIff(s.m, s.g, o.g, priv, o.cap, i, Region(base, bytes, owner, 1, flags), pages);
      } else {
        CreateFails(s.g, owner, ShmemRights(flags), Memory(base, bytes), NoMemory);
        assert s.m.frames[base := pages] - {base} == s.m.frames;
      }
    }
  }

  lemma CreateFails(g: Graph, owner: DomainId, rights: Rights, res: Resource, full: Status)
    requires Create(g, owner, rights, res, full).cap == 0 && full != Success
    ensures Create(g, owner, rights, res, full).status != Success
  {
  }

  lemma MapStepCounted(s: State, op: Op, priv: set<nat>)
    requires op.OpShmemMap? && Legal(s, op) && Lineage.Tidy(s.g) && Counted(s.m, s.g, {}, priv)
    requires BaseOf(s.g.table[0]) == 0
    ensures var t := Step(s, op).s; Counted(t.m, t.g, {}, priv)
  {
    hide Counted, Attenuate, AddRef;
    var OpShmemMap(from, to, cap, rights) := op;
    AttenuateGains(s.g, from, to, cap, rights);
    var o := Attenuate(s.g, from, to, cap, rights);
    if Step(s, op).cap != 0 { MapCounted(s.m, s.g, o.g, priv, cap, o.cap); }
  }

  // ---------------------------------------------------------------- runs of well-behaved callers

  /** What a caller can see to for itself: sizes below four gigabytes and runs that are not private,
      private bases for plain memory, no operation on slot 0, and no unmapping by the core domain. */
  predicate Careful(op: Op, priv: set<nat>) {
    match op
    case OpCreate(_, r) => r.MemoryCap? && r.base != 0 && r.base in priv
    case OpShmemAlloc(_, size, _, lent) => Pages(size) * PAGE_SIZE < U32 && (lent.Some? ==> lent.value !in priv)
    case OpShmemMap(_, _, cap, _) => cap != 0
    case OpTransfer(_, _, cap) => cap != 0
    case OpShmemUnmap(domain, _) => domain != HIC_DOMAIN_CORE
    case OpDerive(_, _, _) => false
    case OpDeriveWithPolicy(_, _, _, _) => false
    case OpAttenuate(_, _, _, _) => false
    case _ => true
  }

  /** Every capability names memory, and a slot without one belongs to the core domain. */
  ghost predicate Settled(g: Graph) {
    && Lineage.Tidy(g) && BaseOf(g.table[0]) == 0
    && (forall c :: 0 <= c < CAP_TABLE_SIZE && Live(g, c) ==> BaseOf(g.table[c]) != 0)
    && (forall c :: 0 <= c < CAP_TABLE_SIZE && !Live(g, c) ==> g.table[c].owner == HIC_DOMAIN_CORE)
  }

  lemma CarefulCounts(s: State, op: Op, priv: set<nat>)
    requires Legal(s, op) && Careful(op, priv) && Settled(s.g)
    ensures !Miscounts(s, op, priv)
  {
    hide Create, Attenuate, RevokeFrom, ReleaseAll, AddRef, DropRef, FindRegion, Pages, TokenValid, HandleCap,
      FirstUnstarted, AllowedPolicies;
  }

  lemma AllotsSettled(g: Graph, h: Graph, c: CapId)
    requires Settled(g) && (if c == 0 then h.table == g.table else Lineage.Filled(g, h, c, c) && BaseOf(h.table[c]) != 0)
    ensures Settled(h)
  {
  }

  lemma CarefulSettled(s: State, op: Op, priv: set<nat>)
    requires Legal(s, op) && Careful(op, priv) && Settled(s.g)
    ensures Settled(Step(s, op).s.g)
  {
    hide Create, Attenuate, RevokeFrom, ReleaseAll, AddRef, DropRef, FindRegion, Pages, TokenValid, HandleCap,
      FirstUnstarted, AllowedPolicies, Settled;
    match op
    case OpCreate(owner, r) =>
      Lineage.CreateAllots(s.g, owner, r.Rights(), r.Resource(), r.Full());
      CreatedRes(s.g, owner, r.Rights(), r.Resource(), r.Full());
      AllotsSettled(s.g, Step(s, op).s.g, Step(s, op).cap);
    case OpShmemAlloc(owner, size, flags, lent) =>
      if lent.Some? {
        var res := Memory(lent.value, Pages(size) * PAGE_SIZE % U32);
        Lineage.CreateAllots(s.g, owner, ShmemRights(flags), res, NoMemory);
        CreatedRes(s.g, owner, ShmemRights(flags), res, NoMemory);
      }
      AllotsSettled(s.g, Step(s, op).s.g, Step(s, op).cap);
    case OpShmemMap(from, to, cap, rights) =>
      Lineage.AttenuateAllots(s.g, from, to, cap, rights);
      AttenuateSettled(s.g, from, to, cap, rights);
      AllotsSettled(s.g, Step(s, op).s.g, Step(s, op).cap);
    case OpTransfer(from, to, cap) => TransferSettled(s.g, from, to, cap);
    case OpRevoke(cap) =>
      if Live(s.g, cap) {
        Revocation.RevokeFromSweeps(s.g, cap, 0);
        SweptSettled(s.g, RevokeFrom(s.g, cap, 0));
      }
    case OpShmemUnmap(domain, handle) =>
      if HandleCap(handle) < CAP_TABLE_SIZE { ClearedSettled(s.g, HandleCap(handle)); }
    case OpRekey(_, _) =>
    case OpStartDomain(_) =>
    case OpSetPolicies(_, _) =>
  }

  lemma CreatedRes(g: Graph, owner: DomainId, rights: Rights, res: Resource, full: Status)
    ensures var o := Create(g, owner, rights, res, full);
            o.cap != 0 ==> o.cap < CAP_TABLE_SIZE && o.g.table[o.cap].res == res
  {
  }

  lemma AttenuateSettled(g: Graph, from: DomainId, to: DomainId, cap: CapId, rights: Rights)
    requires Settled(g) && cap != 0
    ensures var o := Attenuate(g, from, to, cap, rights);
            o.cap != 0 ==> o.cap < CAP_TABLE_SIZE && BaseOf(o.g.table[o.cap]) != 0
  {
    hide Record;
  }

  lemma TransferSettled(g: Graph, from: DomainId, to: DomainId, cap: CapId)
    requires Settled(g) && cap != 0
    ensures Settled(Transfer(g, from, to, cap).g)
  {
  }

  lemma SweptSettled(g: Graph, w: Sweep)
    requires Settled(g) && Revocation.Swept(g, w)
    ensures Settled(w.g)
  {
  }

  lemma ClearedSettled(g: Graph, c: CapId)
    requires Settled(g) && c < CAP_TABLE_SIZE
    ensures Settled(g.(table := g.table[c := Cleared(g.table[c])]))
  {
  }

  predicate AllCareful(ops: seq<Op>, priv: set<nat>) {
    forall k :: 0 <= k < |ops| ==> Careful(ops[k], priv)
  }

  // ---------------------------------------------------------------- whole runs

  /** No operation of the run spoils the count. */
  predicate NeverMiscounts(s: State, ops: seq<Op>, priv: set<nat>)
    requires LegalRun(s, ops)
    decreases |ops|
  {
    ops == [] || (!Miscounts(s, ops[0], priv) && NeverMiscounts(Step(s, ops[0]).s, ops[1..], priv))
  }

  lemma {:induction false} RunCounted(s: State, ops: seq<Op>, priv: set<nat>)
    requires LegalRun(s, ops) && NeverMiscounts(s, ops, priv)
    requires Lineage.Tidy(s.g) && BaseOf(s.g.table[0]) == 0 && Counted(s.m, s.g, {}, priv)
    ensures Counted(Run(s, ops).m, Run(s, ops).g, {}, priv)
    decreases |ops|
  {
    hide Step, Legal, Counted, Miscounts;
    if ops != [] {
      CountedStepIff(s, ops[0], priv);
      Lineage.StepTidy(s, ops[0]);
      Lineage.StepOthersKept(s, ops[0]);
      RunCounted(Step(s, ops[0]).s, ops[1..], priv);
    }
  }

  /** From the zeroed tables, over every run of every mix of operations in which none spoils the
      count: each region counts its holders, every capability on memory that is not private stands
      on a region, the page runs lent out are exactly those of the regions, and none was ever
      returned twice or at the wrong length. */
  lemma SharedMemoryCounted(keys: seq<Key>, ops: seq<Op>, priv: set<nat>)
    requires |keys| == HIC_DOMAIN_MAX && LegalRun(Init(keys), ops) && NeverMiscounts(Init(keys), ops, priv)
    ensures var s := Run(Init(keys), ops);
            && !s.m.badFree
            && (forall i :: 0 <= i < |s.m.regions| && s.m.regions[i].base != 0 ==>
                              && s.m.regions[i].refs == |Holders(s.g, s.m.regions[i].base, {})| >= 1
                              && s.m.regions[i].base in s.m.frames
                              && s.m.frames[s.m.regions[i].base] == Pages(s.m.regions[i].size))
            && (forall b :: b in s.m.frames ==> Active(s.m, b))
            && (forall c :: 0 <= c < CAP_TABLE_SIZE && Live(s.g, c) && BaseOf(s.g.table[c]) != 0 ==>
                              BaseOf(s.g.table[c]) in priv || Active(s.m, BaseOf(s.g.table[c])))
  {
    hide LegalRun, Run, Holders, Pages, Active, NeverMiscounts;
    assert Counted(Init(keys).m, Init(keys).g, {}, priv);
    RunCounted(Init(keys), ops, priv);
    var s := Run(Init(keys), ops);
    assert forall i :: 0 <= i < |s.m.regions| && s.m.regions[i].base != 0 ==> RegionCounted(s.m, s.g, {}, s.m.regions[i]);
    assert forall c :: 0 <= c < CAP_TABLE_SIZE && Live(s.g, c) ==> Backed(s.m, s.g.table[c], priv);
  }

  /** Callers that keep to what they can see for themselves never spoil the count. */
  lemma {:induction false} CarefulRun(s: State, ops: seq<Op>, priv: set<nat>)
    requires LegalRun(s, ops) && AllCareful(ops, priv) && Settled(s.g)
    ensures NeverMiscounts(s, ops, priv)
    decreases |ops|
  {
    hide Step, Legal, Careful, Miscounts;
    if ops != [] {
      CarefulCounts(s, ops[0], priv);
      CarefulSettled(s, ops[0], priv);
      CarefulRun(Step(s, ops[0]).s, ops[1..], priv);
    }
  }

  /** The core domain unmaps one slot twice: the second call takes the reference of another holder,
      whose memory is returned under it. */
  lemma CoreUnmapsTwice(keys: seq<Key>)
    requires |keys| == HIC_DOMAIN_MAX
    ensures var s1 := Step(Init(keys), OpShmemAlloc(0, 0x1000, 1, Some(0x5000))).s;
            var s2 := Step(s1, OpShmemMap(0, 5, 1, 1)).s;
            var s3 := ShmemUnmap(s2, 0, MakeHandle(keys[0], 1)).s;
            var s4 := ShmemUnmap(s3, 0, MakeHandle(keys[0], 1)).s;
            Live(s4.g, 2) && BaseOf(s4.g.table[2]) == 0x5000 && 0x5000 !in s4.m.frames
  {
    hide MakeHandle, TokenValid, HandleCap;
    Handles.MadeHandle(keys, 0, 1);
    var s1 := Step(Init(keys), OpShmemAlloc(0, 0x1000, 1, Some(0x5000))).s;
    assert s1.g.table[1].id == 1 && s1.m.regions[0].base == 0x5000 && s1.m.regions[0].refs == 1;
    assert s1.m.frames == map[0x5000 := 1];
    var s2 := Step(s1, OpShmemMap(0, 5, 1, 1)).s;
    assert s2.g.table[2].id == 2 && s2.m.regions[0].refs == 2;
    var s3 := ShmemUnmap(s2, 0, MakeHandle(keys[0], 1)).s;
    assert s3.m.regions[0].refs == 1 && s3.g.table[1] == Cleared(s2.g.table[1]);
    assert s3.m.frames == map[0x5000 := 1];
  }
}
