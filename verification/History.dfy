/** Derivation by history, against what the links record.

    Every capability handed out gets a number, and with it the number of the capability it was made
    from.  What derives from what is then a matter of history, which neither revocation nor the reuse
    of slots can change.  The recorded links are only the tables' memory of it. */
module History {
  import opened Capability
  import opened Operations
  import opened Revocation
  import Lineage
  import Subtree
  import Forest
  import Handles

  /** For every number the number of its source, itself when it was created from nothing. */
  type Sources = s: seq<nat> | forall k :: 0 <= k < |s| ==> s[k] <= k

  /** A state with its history: `born` is the number of the capability in each slot.  Number 0
      stands for the empty slot 0. */
  datatype Told = Told(s: State, born: Lineage.Origins, sources: Sources)

  /** Number `b` was made from number `a`, directly or not, or is `a`. */
  predicate Derives(sources: Sources, b: nat, a: nat)
    requires b < |sources|
    decreases b
  {
    b == a || (sources[b] < b && Derives(sources, sources[b], a))
  }

  /** The numbers are in use. */
  ghost predicate Numbered(t: Told) {
    && t.born[0] == 0 && |t.sources| > 0
    && (forall c :: 0 <= c < CAP_TABLE_SIZE ==> t.born[c] < |t.sources|)
    && (forall c :: 0 <= c < CAP_TABLE_SIZE && Live(t.s.g, c) ==> t.born[c] != 0)
  }

  /** The capability in slot `x` derives from the one in slot `y`. */
  ghost predicate From(t: Told, x: CapId, y: CapId)
    requires Numbered(t)
  {
    x < CAP_TABLE_SIZE && y < CAP_TABLE_SIZE && Derives(t.sources, t.born[x], t.born[y])
  }

  /** What handing out slot `c` adds to the history. */
  function HandedOut(t: Told, op: Op, s: State, c: CapId): Told
    requires 1 <= c < CAP_TABLE_SIZE && forall k :: 0 <= k < CAP_TABLE_SIZE ==> t.born[k] < |t.sources|
  {
    var n, from := |t.sources|, Lineage.SourceOf(op);
    Told(s, t.born[c := n], t.sources + [if Lineage.Derived(op) && from < CAP_TABLE_SIZE then t.born[from] else n])
  }

  ghost function Next(t: Told, op: Op): Told
    requires Legal(t.s, op) && Numbered(t)
  {
    var e := Step(t.s, op);
    if 1 <= e.cap < CAP_TABLE_SIZE then HandedOut(t, op, e.s, e.cap) else t.(s := e.s)
  }

  /** The zeroed tables. */
  function Start(keys: seq<Key>): Told
    requires |keys| == HIC_DOMAIN_MAX
  {
    Told(Init(keys), seq(CAP_TABLE_SIZE, i => 0), [0])
  }

  // ---------------------------------------------------------------- derivation

  lemma {:induction false} DerivesTrans(sources: Sources, c: nat, b: nat, a: nat)
    requires c < |sources| && b < |sources| && Derives(sources, c, b) && Derives(sources, b, a)
    ensures Derives(sources, c, a)
    decreases c
  {
    if c != b { DerivesTrans(sources, sources[c], b, a); }
  }

  lemma {:induction false} DerivesFromOlder(sources: Sources, b: nat, a: nat)
    requires b < |sources| && Derives(sources, b, a)
    ensures a <= b
    decreases b
  {
    if b != a { DerivesFromOlder(sources, sources[b], a); }
  }

  /** A new number does not change what derives from what. */
  lemma {:induction false} DerivesStays(sources: Sources, more: Sources, b: nat, a: nat)
    requires b < |sources| && sources <= more
    ensures Derives(more, b, a) == Derives(sources, b, a)
    decreases b
  {
    if b != a && sources[b] < b { DerivesStays(sources, more, sources[b], a); }
  }

  /** The new number derives from itself and whatever its source derives from. */
  lemma NewDerives(t: Told, op: Op, s: State, c: CapId, a: nat)
    requires Numbered(t) && 1 <= c < CAP_TABLE_SIZE && a < |t.sources|
    ensures var u, from := HandedOut(t, op, s, c), Lineage.SourceOf(op);
            Derives(u.sources, |t.sources|, a)
            <==> Lineage.Derived(op) && from < CAP_TABLE_SIZE && Derives(t.sources, t.born[from], a)
  {
    var u, from := HandedOut(t, op, s, c), Lineage.SourceOf(op);
    if Lineage.Derived(op) && from < CAP_TABLE_SIZE { DerivesStays(t.sources, u.sources, t.born[from], a); }
  }

  // ---------------------------------------------------------------- one step of history

  /** After handing out slot `c`: what derives from what, slot by slot. */
  lemma FromAfter(t: Told, op: Op, s: State, c: CapId, x: CapId, y: CapId)
    requires Numbered(t) && 1 <= c < CAP_TABLE_SIZE && x < CAP_TABLE_SIZE && y < CAP_TABLE_SIZE
    requires Numbered(HandedOut(t, op, s, c))
    ensures var u, from := HandedOut(t, op, s, c), Lineage.SourceOf(op);
            && (x != c && y != c ==> (From(u, x, y) <==> From(t, x, y)))
            && (x == c && y != c ==> (From(u, x, y) <==> Lineage.Derived(op) && from < CAP_TABLE_SIZE && From(t, from, y)))
            && (x != c && y == c ==> !From(u, x, y))
            && (x == c && y == c ==> From(u, x, y))
  {
    hide Numbered;
    assert forall k :: 0 <= k < CAP_TABLE_SIZE ==> t.born[k] < |t.sources| by { NumbersInUse(t); }
    var u := HandedOut(t, op, s, c);
    if x == c {
      if y != c { NewDerives(t, op, s, c, t.born[y]); }
    } else {
      DerivesStays(t.sources, u.sources, t.born[x], u.born[y]);
      if y == c && From(u, x, y) { DerivesFromOlder(u.sources, u.born[x], u.born[y]); }
    }
  }

  lemma NumbersInUse(t: Told)
    requires Numbered(t)
    ensures forall k :: 0 <= k < CAP_TABLE_SIZE ==> t.born[k] < |t.sources|
  {
  }

  /** The same capabilities or fewer: the history is what it was. */
  lemma FromSame(t: Told, s: State, x: CapId, y: CapId)
    requires Numbered(t) && Numbered(t.(s := s))
    ensures From(t.(s := s), x, y) <==> From(t, x, y)
  {
    hide Numbered;
  }

  lemma NextNumbered(t: Told, op: Op)
    requires Legal(t.s, op) && Numbered(t) && Lineage.Tidy(t.s.g)
    ensures Numbered(Next(t, op))
    ensures Next(t, op).s == Step(t.s, op).s
  {
    hide Step, Legal, Lineage.Tidy;
    Lineage.StepOthersKept(t.s, op);
  }

  // ---------------------------------------------------------------- what a step does to the lists

  /** No list grew and nothing came to life. */
  ghost predicate Shrunk(g: Graph, h: Graph) {
    && (forall p: CapId, c: CapId :: Listed(h, p, c) ==> Listed(g, p, c))
    && (forall x: CapId :: Live(h, x) ==> Live(g, x))
  }

  lemma SwapRemoveFewer(cs: seq<CapId>, c: CapId, x: CapId)
    requires x in SwapRemove(cs, c)
    ensures x in cs
  {
  }

  lemma RetireShrinks(g: Graph, cap: CapId)
    requires 1 <= cap < CAP_TABLE_SIZE
    ensures Shrunk(g, Retire(g, cap))
  {
    hide SwapRemove;
    var h, p := Retire(g, cap), g.links[cap].parent;
    forall q: CapId, c: CapId | Listed(h, q, c)
      ensures Listed(g, q, c)
    {
      if q == p { SwapRemoveFewer(g.links[p].children, cap, c); }
    }
  }

  /** Revocation over any tables only takes links and capabilities away. */
  lemma {:induction false} RevokeFromShrinks(g: Graph, cap: CapId, depth: nat)
    requires cap != 0
    ensures Shrunk(g, RevokeFrom(g, cap, depth).g)
    decreases REVOKE_MAX_DEPTH + 1 - depth, MAX_DERIVATIVES + 1
  {
    hide Shrunk, Retire, RevokeChildren;
    ShrunkSelf(g);
    if depth <= REVOKE_MAX_DEPTH && cap < CAP_TABLE_SIZE && g.table[cap].id == cap && !g.table[cap].revoked {
      var w := RevokeChildren(Mark(g, cap), cap, 0, depth);
      MarkShrinks(g, cap);
      RevokeChildrenShrinks(Mark(g, cap), cap, 0, depth);
      RetireShrinks(w.g, cap);
      ShrunkTwice(g, Mark(g, cap), w.g);
      ShrunkTwice(g, w.g, Retire(w.g, cap));
    }
  }

  lemma {:induction false} RevokeChildrenShrinks(g: Graph, cap: CapId, i: nat, depth: nat)
    requires 1 <= cap < CAP_TABLE_SIZE && depth <= REVOKE_MAX_DEPTH
    ensures Shrunk(g, RevokeChildren(g, cap, i, depth).g)
    decreases REVOKE_MAX_DEPTH + 1 - depth, MAX_DERIVATIVES - i
  {
    hide Shrunk, RevokeFrom;
    ShrunkSelf(g);
    if i < |g.links[cap].children| && i < MAX_DERIVATIVES {
      var child := g.links[cap].children[i];
      if child != HIC_CAP_INVALID && child < CAP_TABLE_SIZE && !g.table[child].revoked {
        var w := RevokeFrom(g, child, depth + 1);
        RevokeFromShrinks(g, child, depth + 1);
        RevokeChildrenShrinks(w.g, cap, i + 1, depth);
        ShrunkTwice(g, w.g, RevokeChildren(w.g, cap, i + 1, depth).g);
      } else {
        RevokeChildrenShrinks(g, cap, i + 1, depth);
      }
    }
  }

  lemma ShrunkSelf(g: Graph)
    ensures Shrunk(g, g)
  {
  }

  lemma ShrunkTwice(g: Graph, h: Graph, k: Graph)
    requires Shrunk(g, h) && Shrunk(h, k)
    ensures Shrunk(g, k)
  {
  }

  lemma MarkShrinks(g: Graph, cap: CapId)
    requires cap < CAP_TABLE_SIZE
    ensures Shrunk(g, Mark(g, cap))
  {
  }

  /** The list of the source has room for the new capability. */
  predicate Records(g: Graph, op: Op) {
    && Lineage.Derived(op) && 1 <= Lineage.SourceOf(op) < CAP_TABLE_SIZE
    && |g.links[Lineage.SourceOf(op)].children| < MAX_DERIVATIVES
  }

  /** Slot `c` came to life, at most one list grew, and then by `c`. */
  ghost predicate Grown(g: Graph, h: Graph, c: CapId, recorded: bool, from: CapId) {
    && (forall p: CapId, x: CapId :: Listed(h, p, x) <==> Listed(g, p, x) || (recorded && p == from && x == c))
    && (forall x: CapId :: Live(h, x) <==> Live(g, x) || x == c)
    && 1 <= c < CAP_TABLE_SIZE && !Live(g, c)
  }

  lemma CreateGrows(g: Graph, owner: DomainId, rights: Rights, res: Resource, full: Status)
    requires Lineage.Tidy(g) && Create(g, owner, rights, res, full).cap != 0
    ensures Grown(g, Create(g, owner, rights, res, full).g, Create(g, owner, rights, res, full).cap, false, 0)
  {
  }

  predicate Room(g: Graph, p: CapId) {
    1 <= p < CAP_TABLE_SIZE && |g.links[p].children| < MAX_DERIVATIVES
  }

  lemma DeriveGrows(g: Graph, owner: DomainId, parent: CapId, sub: Rights)
    requires Lineage.Tidy(g) && Derive(g, owner, parent, sub).cap != 0
    ensures var o := Derive(g, owner, parent, sub); Grown(g, o.g, o.cap, Room(g, parent), parent)
  {
  }

  lemma AttenuateGrows(g: Graph, from: DomainId, to: DomainId, cap: CapId, rights: Rights)
    requires Lineage.Tidy(g) && Attenuate(g, from, to, cap, rights).cap != 0
    ensures var o := Attenuate(g, from, to, cap, rights); Grown(g, o.g, o.cap, Room(g, cap), cap)
  {
  }

  lemma PolicyGrows(g: Graph, owner: DomainId, parent: CapId, sub: Rights, policy: Policy)
    requires Lineage.Tidy(g) && (parent < CAP_TABLE_SIZE ==> g.table[parent].res.LogicalCore?)
    ensures var o := DeriveWithPolicy(g, owner, parent, sub, policy);
            if o.cap != 0 then Grown(g, o.g, o.cap, Room(g, parent), parent)
            else && (forall p: CapId, x: CapId :: Listed(o.g, p, x) && Live(o.g, x) ==> Listed(g, p, x))
                 && (forall x: CapId :: Live(o.g, x) <==> Live(g, x))
  {
    hide Derive;
    var d := Derive(g, owner, parent, sub);
    Lineage.DeriveStatus(g, owner, parent, sub);
    if d.cap != 0 {
      DeriveGrows(g, owner, parent, sub);
      var o := DeriveWithPolicy(g, owner, parent, sub, policy);
      assert forall p: CapId, x: CapId :: Listed(o.g, p, x) <==> Listed(d.g, p, x);
      assert forall x: CapId :: x != d.cap ==> (Live(o.g, x) <==> Live(d.g, x));
    } else {
      DeriveRefused(g, owner, parent, sub);
    }
  }

  lemma DeriveRefused(g: Graph, owner: DomainId, parent: CapId, sub: Rights)
    requires Derive(g, owner, parent, sub).cap == 0
    ensures Derive(g, owner, parent, sub).g == g
  {
  }

  /** A step that hands out a capability: the first free slot comes to life, and its source, if it
      has one with room, lists it. */
  lemma StepGrows(s: State, op: Op)
    requires Legal(s, op) && Lineage.Tidy(s.g) && Lineage.Makes(op) && Lineage.Accepted(s, op)
    ensures Grown(s.g, Step(s, op).s.g, FirstZero(s.g.table, 1), Records(s.g, op), Lineage.SourceOf(op))
    ensures Step(s, op).cap == FirstZero(s.g.table, 1)
  {
    hide Grown, Create, Derive, DeriveWithPolicy, Attenuate, AddRef, FreeFrames, FindRegion, Pages, CanCreate,
      Lineage.Accepted, FirstZero;
    Lineage.AcceptedIff(s, op);
    match op
    case OpCreate(owner, r) =>
      CreateGrows(s.g, owner, r.Rights(), r.Resource(), r.Full());
      NoSource(s.g, Step(s, op).s.g, FirstZero(s.g.table, 1), 0, Lineage.SourceOf(op));
    case OpDerive(owner, parent, sub) => DeriveGrows(s.g, owner, parent, sub);
    case OpDeriveWithPolicy(owner, parent, sub, policy) => PolicyGrows(s.g, owner, parent, sub, policy);
    case OpAttenuate(from, to, cap, rights) => AttenuateGrows(s.g, from, to, cap, rights);
    case OpShmemAlloc(owner, size, flags, lent) =>
      CreateGrows(s.g, owner, ShmemRights(flags), Memory(lent.value, Pages(size) * PAGE_SIZE % U32), NoMemory);
    case OpShmemMap(from, to, cap, rights) => AttenuateGrows(s.g, from, to, cap, rights);
  }

  lemma NoSource(g: Graph, h: Graph, c: CapId, a: CapId, b: CapId)
    requires Grown(g, h, c, false, a)
    ensures Grown(g, h, c, false, b)
  {
  }

  /** Any other step: nothing comes to life, and no list gains a live capability. */
  lemma StepShrinks(s: State, op: Op)
    requires Legal(s, op) && Lineage.Tidy(s.g) && !(Lineage.Makes(op) && Lineage.Accepted(s, op))
    ensures var h := Step(s, op).s.g;
            && (forall p: CapId, x: CapId :: Listed(h, p, x) && Live(h, x) ==> Listed(s.g, p, x))
            && (forall x: CapId :: Live(h, x) ==> Live(s.g, x))
            && Step(s, op).cap == 0
  {
    hide Create, Derive, DeriveWithPolicy, Attenuate, RevokeFrom, ReleaseAll, AddRef, DropRef, FreeFrames, FindRegion,
      Pages, CanCreate, TokenValid, HandleCap, Lineage.Accepted, FirstZero, FirstUnstarted, AllowedPolicies;
    Lineage.AcceptedIff(s, op);
    match op
    case OpCreate(owner, r) => CreateRefused(s.g, owner, r.Rights(), r.Resource(), r.Full());
    case OpDerive(owner, parent, sub) => DeriveRefused(s.g, owner, parent, sub);
    case OpDeriveWithPolicy(owner, parent, sub, policy) => PolicyGrows(s.g, owner, parent, sub, policy);
    case OpTransfer(from, to, cap) =>
    case OpAttenuate(from, to, cap, rights) => Forest.AttenuateRefused(s.g, from, to, cap, rights);
    case OpRevoke(cap) => if cap != 0 { RevokeFromShrinks(s.g, cap, 0); }
    case OpShmemAlloc(owner, size, flags, lent) =>
      if lent.Some? {
        CreateRefused(s.g, owner, ShmemRights(flags), Memory(lent.value, Pages(size) * PAGE_SIZE % U32), NoMemory);
      }
    case OpShmemMap(from, to, cap, rights) => Forest.AttenuateRefused(s.g, from, to, cap, rights);
    case OpShmemUnmap(domain, handle) =>
    case OpRekey(_, _) =>
    case OpStartDomain(_) =>
    case OpSetPolicies(_, _) =>
  }

  lemma CreateRefused(g: Graph, owner: DomainId, rights: Rights, res: Resource, full: Status)
    ensures Create(g, owner, rights, res, full).cap == 0 ==> Create(g, owner, rights, res, full).g == g
  {
  }

  // ---------------------------------------------------------------- lists that tell the truth

  /** What a live capability lists, if alive, derives from it. */
  ghost predicate ListsTrue(t: Told)
    requires Numbered(t)
  {
    forall p: CapId, c: CapId :: Listed(t.s.g, p, c) && Live(t.s.g, p) && Live(t.s.g, c) ==> From(t, c, p)
  }

  /** The slot to be handed out is still listed by a capability the new one does not derive from,
      or still lists a live capability itself. */
  ghost predicate Misnames(t: Told, op: Op)
    requires Legal(t.s, op) && Numbered(t)
  {
    var g, c, from := t.s.g, FirstZero(t.s.g.table, 1), Lineage.SourceOf(op);
    && Lineage.Makes(op) && Lineage.Accepted(t.s, op)
    && ((exists p: CapId :: Live(g, p) && Listed(g, p, c) && !(Lineage.Derived(op) && From(t, from, p)))
        || (exists d: CapId :: Live(g, d) && Listed(g, c, d)))
  }

  lemma NextMakes(t: Told, op: Op)
    requires Legal(t.s, op) && Numbered(t) && Lineage.Tidy(t.s.g) && Lineage.Makes(op) && Lineage.Accepted(t.s, op)
    ensures var c := FirstZero(t.s.g.table, 1);
            && 1 <= c < CAP_TABLE_SIZE && !Live(t.s.g, c)
            && (forall k :: 0 <= k < CAP_TABLE_SIZE ==> t.born[k] < |t.sources|)
            && Next(t, op) == HandedOut(t, op, Step(t.s, op).s, c)
  {
    hide Step, Legal, Lineage.Tidy, Lineage.Accepted, Listed, Live;
    StepGrows(t.s, op);
  }

  lemma MakeTrueIff(t: Told, op: Op)
    requires Legal(t.s, op) && Numbered(t) && Lineage.Tidy(t.s.g) && Lineage.Makes(op) && Lineage.Accepted(t.s, op)
    requires ListsTrue(t)
    ensures Numbered(Next(t, op)) && (ListsTrue(Next(t, op)) <==> !Misnames(t, op))
  {
    hide Step, Legal, Lineage.Tidy, Lineage.Accepted, FirstZero, Live, Listed, HandedOut, Numbered, From, Next;
    NextNumbered(t, op);
    NextMakes(t, op);
    StepGrows(t.s, op);
    var g, c, from, u := t.s.g, FirstZero(t.s.g.table, 1), Lineage.SourceOf(op), Next(t, op);
    forall x: CapId, y: CapId | Live(u.s.g, x) && Live(u.s.g, y)
      ensures && (x != c && y != c ==> (From(u, x, y) <==> From(t, x, y)))
              && (x == c && y != c ==> (From(u, x, y) <==> Lineage.Derived(op) && From(t, from, y)))
              && (x != c && y == c ==> !From(u, x, y)) && (x == c && y == c ==> From(u, x, y))
    {
      LiveInRange(u.s.g, x);
      LiveInRange(u.s.g, y);
      FromAfter(t, op, Step(t.s, op).s, c, x, y);
      FromInRange(t, from, y);
    }
    if Records(g, op) { FromSelf(t, from); }
  }

  lemma LiveInRange(g: Graph, x: CapId)
    requires Live(g, x)
    ensures 1 <= x < CAP_TABLE_SIZE
  {
  }

  lemma FromInRange(t: Told, x: CapId, y: CapId)
    requires Numbered(t)
    ensures From(t, x, y) ==> x < CAP_TABLE_SIZE && y < CAP_TABLE_SIZE
  {
  }

  lemma FromSelf(t: Told, x: CapId)
    requires Numbered(t) && x < CAP_TABLE_SIZE
    ensures From(t, x, x)
  {
  }

  lemma OtherStepTrue(t: Told, op: Op)
    requires Legal(t.s, op) && Numbered(t) && Lineage.Tidy(t.s.g) && !(Lineage.Makes(op) && Lineage.Accepted(t.s, op))
    ensures Next(t, op) == t.(s := Step(t.s, op).s) && Numbered(Next(t, op))
    ensures forall x: CapId, y: CapId :: From(Next(t, op), x, y) <==> From(t, x, y)
    ensures ListsTrue(t) ==> ListsTrue(Next(t, op))
  {
    hide Step, Legal, Lineage.Tidy, Lineage.Accepted, Live, Listed, Numbered, From;
    StepShrinks(t.s, op);
    NextNumbered(t, op);
    var u := Next(t, op);
    forall x: CapId, y: CapId
      ensures From(u, x, y) <==> From(t, x, y)
    {
      FromSame(t, u.s, x, y);
    }
  }

  /** Over every run of every mix of operations: a step leaves the lists telling the truth if and
      only if it does not hand out a slot that old lists still name. */
  lemma ListsTrueIff(t: Told, op: Op)
    requires Legal(t.s, op) && Numbered(t) && Lineage.Tidy(t.s.g) && ListsTrue(t)
    ensures Numbered(Next(t, op)) && (ListsTrue(Next(t, op)) <==> !Misnames(t, op))
  {
    hide Step, Legal, Lineage.Tidy, Lineage.Accepted, ListsTrue, Numbered, Next;
    if Lineage.Makes(op) && Lineage.Accepted(t.s, op) { MakeTrueIff(t, op); } else { OtherStepTrue(t, op); }
  }

  /** Everything freed derives from the capability revoked, whatever shape the links have, as long
      as the lists tell the truth. */
  lemma {:induction false} FreedDerives(t: Told, g: Graph, cap: CapId, depth: nat)
    requires Numbered(t) && ListsTrue(t) && Shrunk(t.s.g, g) && Live(t.s.g, cap)
    ensures forall x :: x in RevokeFrom(g, cap, depth).freed ==> From(t, x, cap)
    decreases REVOKE_MAX_DEPTH + 1 - depth, MAX_DERIVATIVES + 1
  {
    hide Numbered, ListsTrue, Shrunk, From, RevokeChildren, Retire;
    if depth <= REVOKE_MAX_DEPTH && g.table[cap].id == cap && !g.table[cap].revoked {
      MarkShrinks(g, cap);
      ShrunkTwice(t.s.g, g, Mark(g, cap));
      FreedBelowDerives(t, Mark(g, cap), cap, 0, depth);
      FromSelf(t, cap);
    }
  }

  lemma {:induction false} FreedBelowDerives(t: Told, g: Graph, cap: CapId, i: nat, depth: nat)
    requires Numbered(t) && ListsTrue(t) && Shrunk(t.s.g, g) && Live(t.s.g, cap) && depth <= REVOKE_MAX_DEPTH
    ensures forall x :: x in RevokeChildren(g, cap, i, depth).freed ==> From(t, x, cap)
    decreases REVOKE_MAX_DEPTH + 1 - depth, MAX_DERIVATIVES - i
  {
    hide Numbered, Shrunk, From, RevokeFrom;
    if i < |g.links[cap].children| && i < MAX_DERIVATIVES {
      var child := g.links[cap].children[i];
      if child != HIC_CAP_INVALID && child < CAP_TABLE_SIZE && !g.table[child].revoked {
        var w := RevokeFrom(g, child, depth + 1);
        RevokeFromShrinks(g, child, depth + 1);
        ShrunkTwice(t.s.g, g, w.g);
        FreedBelowDerives(t, w.g, cap, i + 1, depth);
        if Live(g, child) {
          ShrunkLink(t.s.g, g, cap, child);
          FreedDerives(t, g, child, depth + 1);
          forall x | x in w.freed
            ensures From(t, x, cap)
          {
            FromTrans(t, x, child, cap);
          }
        } else {
          NotFreed(g, child, depth + 1);
        }
      } else {
        FreedBelowDerives(t, g, cap, i + 1, depth);
      }
    }
  }

  lemma ShrunkLink(g: Graph, h: Graph, p: CapId, c: CapId)
    requires Shrunk(g, h) && 1 <= p < CAP_TABLE_SIZE && c in h.links[p].children && Live(h, c)
    ensures Listed(g, p, c) && Live(g, c)
  {
    assert Listed(h, p, c);
  }

  lemma NotFreed(g: Graph, cap: CapId, depth: nat)
    requires cap != 0 && !Live(g, cap)
    ensures RevokeFrom(g, cap, depth) == Sweep(g, [])
  {
  }

  lemma FromTrans(t: Told, x: CapId, y: CapId, z: CapId)
    requires Numbered(t) && From(t, x, y) && From(t, y, z)
    ensures From(t, x, z)
  {
    DerivesTrans(t.sources, t.born[x], t.born[y], t.born[z]);
  }

  /** On any tables, everything freed is recorded below the capability revoked.  `k` are the tables
      the revocation began with. */
  lemma {:induction false} FreedBelow(k: Graph, g: Graph, cap: CapId, depth: nat)
    requires Shrunk(k, g) && cap != 0
    ensures forall x :: x in RevokeFrom(g, cap, depth).freed ==> Subtree.Below(k, cap, x)
    decreases REVOKE_MAX_DEPTH + 1 - depth, MAX_DERIVATIVES + 1
  {
    hide Shrunk, Subtree.Below, RevokeChildren, Retire;
    if depth <= REVOKE_MAX_DEPTH && cap < CAP_TABLE_SIZE && g.table[cap].id == cap && !g.table[cap].revoked {
      MarkShrinks(g, cap);
      ShrunkTwice(k, g, Mark(g, cap));
      FreedListBelow(k, Mark(g, cap), cap, 0, depth);
      BelowSelf(k, cap);
    }
  }

  lemma {:induction false} FreedListBelow(k: Graph, g: Graph, cap: CapId, i: nat, depth: nat)
    requires Shrunk(k, g) && 1 <= cap < CAP_TABLE_SIZE && depth <= REVOKE_MAX_DEPTH
    ensures forall x :: x in RevokeChildren(g, cap, i, depth).freed ==> Subtree.Below(k, cap, x)
    decreases REVOKE_MAX_DEPTH + 1 - depth, MAX_DERIVATIVES - i
  {
    hide Shrunk, Subtree.Below, RevokeFrom;
    if i < |g.links[cap].children| && i < MAX_DERIVATIVES {
      var child := g.links[cap].children[i];
      if child != HIC_CAP_INVALID && child < CAP_TABLE_SIZE && !g.table[child].revoked {
        var w := RevokeFrom(g, child, depth + 1);
        RevokeFromShrinks(g, child, depth + 1);
        ShrunkTwice(k, g, w.g);
        FreedListBelow(k, w.g, cap, i + 1, depth);
        FreedBelow(k, g, child, depth + 1);
        forall x | x in w.freed
          ensures Subtree.Below(k, cap, x)
        {
          ShrunkListed(k, g, cap, child);
          ChildBelow(k, cap, child, x);
        }
      } else {
        FreedListBelow(k, g, cap, i + 1, depth);
      }
    }
  }

  lemma ShrunkListed(g: Graph, h: Graph, p: CapId, c: CapId)
    requires Shrunk(g, h) && Listed(h, p, c)
    ensures Listed(g, p, c)
  {
  }

  lemma ChildBelow(g: Graph, p: CapId, c: CapId, x: CapId)
    requires Listed(g, p, c) && Subtree.Below(g, c, x)
    ensures Subtree.Below(g, p, x)
  {
    var path :| Subtree.PathTo(g, path, c, x);
    LongerPath(g, p, path);
    assert Subtree.PathTo(g, [p] + path, p, x);
  }

  /** The first capability a revoked one lists is freed with it, whatever it derives from. */
  lemma FirstListedFreed(g: Graph, p: CapId, c: CapId)
    requires Lineage.Tidy(g) && Live(g, p) && Live(g, c) && c != p
    requires |g.links[p].children| > 0 && g.links[p].children[0] == c
    ensures c in RevokeFrom(g, p, 0).freed
  {
    var marked := Mark(g, p);
    RevokeFromSweeps(marked, c, 1);
    hide Swept, Retire;
    assert RevokeChildren(marked, p, 0, 0).freed
        == RevokeFrom(marked, c, 1).freed + RevokeChildren(RevokeFrom(marked, c, 1).g, p, 1, 0).freed;
  }

  /** While no list is longer than one, every revocation frees only what derives from the capability
      revoked if and only if the lists tell the truth. */
  lemma OnlyDerivedFreedIff(t: Told)
    requires Numbered(t) && Lineage.Tidy(t.s.g)
    requires forall p :: 0 <= p < CAP_TABLE_SIZE && Live(t.s.g, p) ==> |t.s.g.links[p].children| <= 1
    ensures (forall cap: CapId, x: CapId :: Live(t.s.g, cap) && x in RevokeFrom(t.s.g, cap, 0).freed ==> From(t, x, cap))
            <==> ListsTrue(t)
  {
    hide Numbered, RevokeFrom, From, Shrunk, Lineage.Tidy;
    var g := t.s.g;
    if ListsTrue(t) {
      forall cap: CapId, x: CapId | Live(g, cap) && x in RevokeFrom(g, cap, 0).freed
        ensures From(t, x, cap)
      {
        ShrunkSelf(g);
        FreedDerives(t, g, cap, 0);
      }
    } else {
      var p: CapId, c: CapId :| Listed(g, p, c) && Live(g, p) && Live(g, c) && !From(t, c, p);
      if c == p { FromSelf(t, p); }
      FirstListedFreed(g, p, c);
    }
  }

  // ---------------------------------------------------------------- forests

  /** In a forest free slots are named in no list and have none. */
  lemma ForestNames(t: Told, op: Op)
    requires Legal(t.s, op) && Numbered(t) && Lineage.Tidy(t.s.g) && Forest.IsForest(t.s.g)
    ensures !Misnames(t, op)
  {
    hide Distinct, From, Numbered, FirstZero;
    var rank :| ForestBy(t.s.g, rank);
    if Lineage.Makes(op) && Lineage.Accepted(t.s, op) {
      hide Legal, Lineage.Accepted;
      NextMakes(t, op);
    }
  }

  /** What is recorded below a capability derives from it. */
  lemma {:induction false} BelowDerives(t: Told, rank: CapId -> nat, path: seq<CapId>)
    requires Numbered(t) && ListsTrue(t) && ForestBy(t.s.g, rank) && Subtree.IsPath(t.s.g, path) && Live(t.s.g, path[0])
    ensures From(t, path[|path| - 1], path[0])
    decreases |path|
  {
    hide Distinct, From, Numbered;
    if |path| == 1 {
      FromSelf(t, path[0]);
    } else {
      var front := path[..|path| - 1];
      assert Listed(t.s.g, path[|path| - 2], path[|path| - 1]);
      BelowDerives(t, rank, front);
      FromTrans(t, path[|path| - 1], path[|path| - 2], path[0]);
    }
  }

  /** Every live capability that derives from `cap` is recorded below it. */
  ghost predicate AllRecorded(t: Told, cap: CapId)
    requires Numbered(t)
  {
    forall x: CapId :: Live(t.s.g, x) && From(t, x, cap) ==> Subtree.Below(t.s.g, cap, x)
  }

  /** Revocation keeps its promise, that nothing derived from the capability stays valid, if and
      only if the recorded subtree is thin and the record is complete. */
  lemma DerivedGoneIff(t: Told, rank: CapId -> nat, cap: CapId)
    requires Numbered(t) && ListsTrue(t) && Lineage.Tidy(t.s.g) && ForestBy(t.s.g, rank) && Live(t.s.g, cap)
    ensures (forall x: CapId :: Live(RevokeFrom(t.s.g, cap, 0).g, x) ==> !From(t, x, cap))
            <==> Subtree.Thin(t.s.g, cap) && AllRecorded(t, cap)
  {
    hide Doomed, Distinct, Subtree.Below, Subtree.Thin, RevokeFrom, Unlink, From, Numbered, ListsTrue, ForestBy;
    var g := t.s.g;
    RevokeFromExact(g, rank, cap, 0);
    var h := RevokeFrom(g, cap, 0).g;
    if Subtree.Thin(g, cap) && AllRecorded(t, cap) {
      forall x: CapId | Live(h, x)
        ensures !From(t, x, cap)
      {
        if From(t, x, cap) { Subtree.ThinIsFreed(g, rank, cap, x); }
      }
    } else if !AllRecorded(t, cap) {
      var x: CapId :| Live(g, x) && From(t, x, cap) && !Subtree.Below(g, cap, x);
      if x in Doomed(g, cap, 0) { Subtree.FreedIsBelow(g, rank, cap, x); }
      assert Live(h, x);
    } else {
      var x := Subtree.ThickSurvives(g, rank, cap);
      Subtree.BelowLive(g, rank, cap, x);
      assert Live(h, x);
      BelowIsFrom(t, rank, cap, x);
    }
  }

  lemma BelowIsFrom(t: Told, rank: CapId -> nat, cap: CapId, x: CapId)
    requires Numbered(t) && ListsTrue(t) && ForestBy(t.s.g, rank) && Live(t.s.g, cap) && Subtree.Below(t.s.g, cap, x)
    ensures From(t, x, cap)
  {
    hide From, ListsTrue, ForestBy, Numbered;
    var path :| Subtree.PathTo(t.s.g, path, cap, x);
    BelowDerives(t, rank, path);
  }

  /** What a revocation in a forest frees is what is doomed. */
  lemma FreedIsDoomed(g: Graph, rank: CapId -> nat, cap: CapId, x: CapId)
    requires Lineage.Tidy(g) && ForestBy(g, rank) && Live(g, cap)
    ensures x in RevokeFrom(g, cap, 0).freed <==> x in Doomed(g, cap, 0)
  {
    hide Doomed, Distinct, RevokeFrom, ForestBy;
    RevokeLives(g, rank, cap);
    RevokeFromSweeps(g, cap, 0);
    OnlyFreedDies(g, RevokeFrom(g, cap, 0));
    if x in Doomed(g, cap, 0) { DoomedFacts(g, rank, cap, 0, x); }
  }

  /** What stands in the first half of a list derives from its owner. */
  ghost predicate HalvesTrue(t: Told)
    requires Numbered(t)
  {
    forall p: CapId, c: CapId :: Live(t.s.g, p) && c in FirstHalf(t.s.g.links[p].children) ==> From(t, c, p)
  }

  lemma {:induction false} DoomedDerives(t: Told, rank: CapId -> nat, cap: CapId, x: CapId)
    requires Numbered(t) && HalvesTrue(t) && ForestBy(t.s.g, rank) && Live(t.s.g, cap) && x in Doomed(t.s.g, cap, 0)
    ensures From(t, x, cap)
    decreases rank(x)
  {
    hide Numbered, From, Doomed, FirstHalf, Distinct;
    if x == cap {
      FromSelf(t, cap);
    } else {
      DoomedFacts(t.s.g, rank, cap, 0, x);
      var p := t.s.g.links[x].parent;
      DoomedDerives(t, rank, cap, p);
      FromTrans(t, x, p, cap);
    }
  }

  lemma FirstHalfDoomed(g: Graph, p: CapId, c: CapId)
    requires Live(g, p) && c < CAP_TABLE_SIZE && c in FirstHalf(g.links[p].children)
    ensures c in Doomed(g, p, 0)
  {
    DoomedAllMember(g, FirstHalf(g.links[p].children), 1, c);
    hide FirstHalf;
    assert c in Doomed(g, c, 1);
  }

  /** In a forest, with lists of any length, the place decides: every revocation frees only what
      derives from the capability revoked if and only if the first half of every list is true. */
  lemma OnlyDerivedFreedInForestIff(t: Told)
    requires Numbered(t) && Lineage.Tidy(t.s.g) && Forest.IsForest(t.s.g)
    ensures (forall cap: CapId, x: CapId :: Live(t.s.g, cap) && x in RevokeFrom(t.s.g, cap, 0).freed ==> From(t, x, cap))
            <==> HalvesTrue(t)
  {
    hide Numbered, RevokeFrom, From, Doomed, Lineage.Tidy, FirstHalf, ForestBy;
    var g := t.s.g;
    var rank :| ForestBy(g, rank);
    if HalvesTrue(t) {
      forall cap: CapId, x: CapId | Live(g, cap) && x in RevokeFrom(g, cap, 0).freed
        ensures From(t, x, cap)
      {
        FreedIsDoomed(g, rank, cap, x);
        DoomedDerives(t, rank, cap, x);
      }
    } else {
      var p: CapId, c: CapId :| Live(g, p) && c in FirstHalf(g.links[p].children) && !From(t, c, p);
      ListedLive(g, rank, p, c);
      FirstHalfDoomed(g, p, c);
      FreedIsDoomed(g, rank, p, c);
    }
  }

  lemma ListedLive(g: Graph, rank: CapId -> nat, p: CapId, c: CapId)
    requires ForestBy(g, rank) && Live(g, p) && c in FirstHalf(g.links[p].children)
    ensures Live(g, c)
  {
    hide Distinct;
    assert Listed(g, p, c);
  }

  lemma NumberedStill(t: Told, s: State)
    requires Numbered(t) && s.g.table == t.s.g.table
    ensures Numbered(t.(s := s))
  {
  }

  /** Outside forests too: of two tables that differ only in the place of a wrong name in one list,
      revocation spares it in the one and takes it in the other. */
  lemma PlaceDecides(t: Told, u: Told, p: CapId, c: CapId, wrong: CapId)
    requires Numbered(t) && Lineage.Tidy(t.s.g) && Live(t.s.g, p) && Live(t.s.g, c) && Live(t.s.g, wrong)
    requires c != p && c != wrong && From(t, c, p) && !From(t, wrong, p)
    requires t.s.g.links[p].children == [c, wrong] && t.s.g.links[c] == Link(p, [])
    requires u == t.(s := t.s.(g := t.s.g.(links := t.s.g.links[p := t.s.g.links[p].(children := [wrong, c])])))
    ensures forall x :: x in RevokeFrom(t.s.g, p, 0).freed ==> From(t, x, p)
    ensures Numbered(u) && wrong in RevokeFrom(u.s.g, p, 0).freed && !From(u, wrong, p)
  {
    hide RevokeFrom, Unlink, Derives, From, Numbered;
    FromSelf(t, p);
    Forest.SecondLeafTables(t.s.g, p, c, wrong);
    RevokeFromSweeps(t.s.g, p, 0);
    forall x | x in RevokeFrom(t.s.g, p, 0).freed
      ensures x == p || x == c
    {
      assert !Live(RevokeFrom(t.s.g, p, 0).g, x) && Live(t.s.g, x);
    }
    FirstListedFreed(u.s.g, p, wrong);
    NumberedStill(t, u.s);
    FromSame(t, u.s, wrong, p);
  }

  // ---------------------------------------------------------------- when the record falls behind

  /** The record is complete: whatever derives from a live capability is recorded below it. */
  ghost predicate Recorded(t: Told)
    requires Numbered(t)
  {
    forall y: CapId :: Live(t.s.g, y) ==> AllRecorded(t, y)
  }

  /** The steps that leave something derived unrecorded: making a capability from one whose list is
      full, and revoking a listed capability whose subtree is not thin. */
  ghost predicate Parts(s: State, op: Op)
    requires Legal(s, op)
  {
    || (&& Lineage.Derived(op) && Lineage.Accepted(s, op) && 1 <= Lineage.SourceOf(op)
        && !Room(s.g, Lineage.SourceOf(op)))
    || (op.OpRevoke? && Live(s.g, op.cap) && (exists p: CapId :: Listed(s.g, p, op.cap)) && !Subtree.Thin(s.g, op.cap))
  }

  /** More links, more below. */
  lemma BelowMore(g: Graph, h: Graph, y: CapId, x: CapId)
    requires Subtree.Below(g, y, x) && forall p: CapId, c: CapId :: Listed(g, p, c) ==> Listed(h, p, c)
    ensures Subtree.Below(h, y, x)
  {
    hide Listed;
    var path :| Subtree.PathTo(g, path, y, x);
    assert Subtree.PathTo(h, path, y, x);
  }

  lemma BelowSelf(g: Graph, x: CapId)
    ensures Subtree.Below(g, x, x)
  {
    assert Subtree.PathTo(g, [x], x, x);
  }

  lemma BelowChild(g: Graph, y: CapId, p: CapId, c: CapId)
    requires Subtree.Below(g, y, p) && Listed(g, p, c)
    ensures Subtree.Below(g, y, c)
  {
    hide Listed;
    var path :| Subtree.PathTo(g, path, y, p);
    assert Subtree.PathTo(g, path + [c], y, c);
  }

  /** Nothing is below another capability unless some list names it. */
  lemma BelowIsListed(g: Graph, y: CapId, x: CapId)
    requires Subtree.Below(g, y, x) && x != y
    ensures exists p: CapId :: Listed(g, p, x)
  {
    hide Listed;
    var path :| Subtree.PathTo(g, path, y, x);
    assert Listed(g, path[|path| - 2], path[|path| - 1]);
  }

  /** Nothing live derives from slot 0. */
  lemma NotFromZero(t: Told, y: CapId)
    requires Numbered(t) && Live(t.s.g, y)
    ensures !From(t, 0, y)
  {
  }

  /** The source of an accepted derivation is slot 0 or live. */
  lemma SourceLive(s: State, op: Op)
    requires Legal(s, op) && Lineage.Derived(op) && Lineage.Accepted(s, op)
    ensures Lineage.SourceOf(op) < CAP_TABLE_SIZE && (Lineage.SourceOf(op) != 0 ==> Live(s.g, Lineage.SourceOf(op)))
  {
    hide Lineage.FreeSlot, Subset;
  }

  lemma MakeRecords(t: Told, op: Op)
    requires Legal(t.s, op) && Numbered(t) && Lineage.Tidy(t.s.g) && Lineage.Makes(op) && Lineage.Accepted(t.s, op)
    requires Recorded(t) && !Parts(t.s, op) && Numbered(Next(t, op))
    ensures Recorded(Next(t, op))
  {
    hide Step, Legal, Lineage.Tidy, Lineage.Accepted, FirstZero, Live, Listed, HandedOut, Numbered, From, Next,
      Subtree.Below, Subtree.Thin;
    NextMakes(t, op);
    StepGrows(t.s, op);
    NextNumbered(t, op);
    var g, c, from, u := t.s.g, FirstZero(t.s.g.table, 1), Lineage.SourceOf(op), Next(t, op);
    forall x: CapId, y: CapId | Live(u.s.g, y) && Live(u.s.g, x) && From(u, x, y)
      ensures Subtree.Below(u.s.g, y, x)
    {
      LiveInRange(u.s.g, x);
      LiveInRange(u.s.g, y);
      FromAfter(t, op, Step(t.s, op).s, c, x, y);
      if x == y {
        BelowSelf(u.s.g, x);
      } else if x == c {
        SourceLive(t.s, op);
        if from == 0 { NotFromZero(t, y); }
        BelowMore(g, u.s.g, y, from);
        BelowChild(u.s.g, y, from, c);
      } else {
        BelowMore(g, u.s.g, y, x);
      }
    }
  }

  lemma MakeParts(t: Told, rank: CapId -> nat, op: Op)
    requires Legal(t.s, op) && Numbered(t) && Lineage.Tidy(t.s.g) && ForestBy(t.s.g, rank)
    requires Lineage.Derived(op) && Lineage.Accepted(t.s, op) && Parts(t.s, op) && Numbered(Next(t, op))
    ensures !Recorded(Next(t, op))
  {
    hide Step, Legal, Lineage.Tidy, Lineage.Accepted, FirstZero, Live, HandedOut, Numbered, From, Next,
      Subtree.Below, Subtree.Thin, Distinct;
    NextMakes(t, op);
    StepGrows(t.s, op);
    NextNumbered(t, op);
    SourceLive(t.s, op);
    var g, c, from, u := t.s.g, FirstZero(t.s.g.table, 1), Lineage.SourceOf(op), Next(t, op);
    FromAfter(t, op, Step(t.s, op).s, c, c, from);
    FromSelf(t, from);
    if Subtree.Below(u.s.g, from, c) {
      BelowIsListed(u.s.g, from, c);
    }
    assert Live(u.s.g, c) && Live(u.s.g, from) && From(u, c, from);
  }

  /** The links left by a revocation in a forest: those between slots it did not free. */
  lemma ErasedListed(g: Graph, rank: CapId -> nat, cap: CapId, p: CapId, x: CapId)
    requires ForestBy(g, rank) && Live(g, cap) && Lineage.Tidy(g)
    ensures var gone := Doomed(g, cap, 0);
            Listed(RevokeFrom(g, cap, 0).g, p, x) <==> Listed(g, p, x) && p !in gone && x !in gone
  {
    hide Doomed, Distinct, RevokeFrom, SwapRemove;
    RevokeFromExact(g, rank, cap, 0);
    var gone, q := Doomed(g, cap, 0), g.links[cap].parent;
    assert cap in gone by { Forest.RootDoomed(g, cap); }
    if 1 <= q < CAP_TABLE_SIZE { SwapRemoveFacts(g.links[q].children, cap); }
    if Listed(g, p, x) && p !in gone && x in gone {
      if x != cap { DoomedFacts(g, rank, cap, 0, x); }
    }
  }

  /** A path that meets a freed slot, coming from one that is not, meets the revoked one. */
  lemma {:induction false} EntersAtRoot(g: Graph, rank: CapId -> nat, cap: CapId, path: seq<CapId>, k: nat) returns (j: nat)
    requires ForestBy(g, rank) && Live(g, cap) && Subtree.IsPath(g, path) && k < |path|
    requires path[0] !in Doomed(g, cap, 0) && path[k] in Doomed(g, cap, 0)
    ensures 1 <= j <= k && path[j] == cap
    decreases k
  {
    hide Doomed, Distinct;
    if path[k] == cap {
      j := k;
    } else {
      DoomedFacts(g, rank, cap, 0, path[k]);
      assert Listed(g, path[k - 1], path[k]);
      j := EntersAtRoot(g, rank, cap, path, k - 1);
    }
  }

  /** In a thin subtree, or at its top, a path between survivors is left alone. */
  lemma PathSurvives(g: Graph, rank: CapId -> nat, cap: CapId, path: seq<CapId>, k: nat)
    requires ForestBy(g, rank) && Live(g, cap) && Subtree.IsPath(g, path) && k < |path|
    requires path[0] !in Doomed(g, cap, 0) && path[|path| - 1] !in Doomed(g, cap, 0)
    requires Subtree.Thin(g, cap) || forall p: CapId :: !Listed(g, p, cap)
    ensures path[k] !in Doomed(g, cap, 0)
  {
    hide Doomed, Distinct, Subtree.Thin, ForestBy;
    if path[k] in Doomed(g, cap, 0) {
      var j := EntersAtRoot(g, rank, cap, path, k);
      assert Listed(g, path[j - 1], path[j]);
      assert Subtree.PathTo(g, path[j..], cap, path[|path| - 1]);
      Subtree.ThinIsFreed(g, rank, cap, path[|path| - 1]);
    }
  }

  lemma RevokeRecords(t: Told, rank: CapId -> nat, cap: CapId, s: State)
    requires Numbered(t) && Lineage.Tidy(t.s.g) && ForestBy(t.s.g, rank) && Live(t.s.g, cap) && Recorded(t)
    requires s.g == RevokeFrom(t.s.g, cap, 0).g && Numbered(t.(s := s))
    requires Subtree.Thin(t.s.g, cap) || forall p: CapId :: !Listed(t.s.g, p, cap)
    ensures Recorded(t.(s := s))
  {
    hide Doomed, Distinct, Subtree.Thin, ForestBy, RevokeFrom, Numbered, From, Unlink, Lineage.Tidy;
    var g, u := t.s.g, t.(s := s);
    RevokeLives(g, rank, cap);
    forall x: CapId, y: CapId | Live(u.s.g, y) && Live(u.s.g, x) && From(u, x, y)
      ensures Subtree.Below(u.s.g, y, x)
    {
      FromSame(t, s, x, y);
      assert AllRecorded(t, y);
      var path :| Subtree.PathTo(g, path, y, x);
      forall k | 0 <= k < |path| - 1
        ensures Listed(u.s.g, path[k], path[k + 1])
      {
        assert Listed(g, path[k], path[k + 1]);
        PathSurvives(g, rank, cap, path, k);
        PathSurvives(g, rank, cap, path, k + 1);
        ErasedListed(g, rank, cap, path[k], path[k + 1]);
      }
      assert Subtree.PathTo(u.s.g, path, y, x);
    }
  }

  /** What lives after a revocation in a forest: what did and was not doomed. */
  lemma RevokeLives(g: Graph, rank: CapId -> nat, cap: CapId)
    requires ForestBy(g, rank) && Live(g, cap) && Lineage.Tidy(g)
    ensures forall x: CapId :: Live(RevokeFrom(g, cap, 0).g, x) <==> Live(g, x) && x !in Doomed(g, cap, 0)
  {
    hide Doomed, Distinct, RevokeFrom, Unlink, ForestBy;
    RevokeFromExact(g, rank, cap, 0);
  }

  lemma RevokeParts(t: Told, rank: CapId -> nat, cap: CapId, s: State, p: CapId)
    requires Numbered(t) && ListsTrue(t) && Lineage.Tidy(t.s.g) && ForestBy(t.s.g, rank) && Live(t.s.g, cap)
    requires s.g == RevokeFrom(t.s.g, cap, 0).g && Numbered(t.(s := s))
    requires Listed(t.s.g, p, cap) && !Subtree.Thin(t.s.g, cap)
    ensures !Recorded(t.(s := s))
  {
    hide Doomed, Distinct, Subtree.Thin, RevokeFrom, Numbered, From, Unlink, Lineage.Tidy, ListsTrue;
    var g, u := t.s.g, t.(s := s);
    RevokeLives(g, rank, cap);
    var x := Subtree.ThickSurvives(g, rank, cap);
    Subtree.BelowLive(g, rank, cap, x);
    assert Live(g, p) && rank(p) < rank(cap);
    if p in Doomed(g, cap, 0) { DoomedFacts(g, rank, cap, 0, p); }
    var path :| Subtree.PathTo(g, path, cap, x);
    var longer := [p] + path;
    assert Subtree.PathTo(g, longer, p, x) by { LongerPath(g, p, path); }
    BelowDerives(t, rank, longer);
    FromSame(t, s, x, p);
    if Subtree.Below(u.s.g, p, x) {
      var other :| Subtree.PathTo(u.s.g, other, p, x);
      forall k | 0 <= k < |other| - 1
        ensures Listed(g, other[k], other[k + 1])
      {
        assert Listed(u.s.g, other[k], other[k + 1]);
        ErasedListed(g, rank, cap, other[k], other[k + 1]);
      }
      Subtree.PathUnique(g, rank, other, longer);
      assert Listed(u.s.g, other[0], other[1]);
      ErasedListed(g, rank, cap, other[0], other[1]);
      Forest.RootDoomed(g, cap);
    }
  }

  lemma LongerPath(g: Graph, p: CapId, path: seq<CapId>)
    requires Subtree.IsPath(g, path) && Listed(g, p, path[0])
    ensures Subtree.IsPath(g, [p] + path)
  {
    hide Listed;
    var longer := [p] + path;
    forall k | 0 <= k < |longer| - 1
      ensures Listed(g, longer[k], longer[k + 1])
    {
      if k > 0 { assert Listed(g, path[k - 1], path[k]); }
    }
  }

  /** The remaining steps take no link away. */
  lemma OtherKeepsLists(s: State, op: Op)
    requires Legal(s, op) && Lineage.Tidy(s.g) && !(Lineage.Makes(op) && Lineage.Accepted(s, op))
    requires op.OpRevoke? ==> !Live(s.g, op.cap)
    ensures forall p: CapId, x: CapId :: Listed(s.g, p, x) ==> Listed(Step(s, op).s.g, p, x)
  {
    hide Create, Derive, DeriveWithPolicy, Attenuate, RevokeFrom, ReleaseAll, AddRef, DropRef, FreeFrames, FindRegion,
      Pages, CanCreate, TokenValid, HandleCap, Lineage.Accepted, FirstZero, FirstUnstarted, AllowedPolicies;
    Lineage.AcceptedIff(s, op);
    match op
    case OpCreate(owner, r) => CreateRefused(s.g, owner, r.Rights(), r.Resource(), r.Full());
    case OpDerive(owner, parent, sub) => DeriveRefused(s.g, owner, parent, sub);
    case OpDeriveWithPolicy(owner, parent, sub, policy) => PolicyKeepsLists(s.g, owner, parent, sub, policy);
    case OpTransfer(from, to, cap) =>
    case OpAttenuate(from, to, cap, rights) => Forest.AttenuateRefused(s.g, from, to, cap, rights);
    case OpRevoke(cap) =>
    case OpShmemAlloc(owner, size, flags, lent) =>
      if lent.Some? {
        CreateRefused(s.g, owner, ShmemRights(flags), Memory(lent.value, Pages(size) * PAGE_SIZE % U32), NoMemory);
      }
    case OpShmemMap(from, to, cap, rights) => Forest.AttenuateRefused(s.g, from, to, cap, rights);
    case OpShmemUnmap(domain, handle) =>
    case OpRekey(_, _) =>
    case OpStartDomain(_) =>
    case OpSetPolicies(_, _) =>
  }

  lemma PolicyKeepsLists(g: Graph, owner: DomainId, parent: CapId, sub: Rights, policy: Policy)
    requires Lineage.Tidy(g) && (parent < CAP_TABLE_SIZE ==> g.table[parent].res.LogicalCore?)
    ensures forall p: CapId, x: CapId :: Listed(g, p, x) ==> Listed(DeriveWithPolicy(g, owner, parent, sub, policy).g, p, x)
  {
    hide Derive;
    var d := Derive(g, owner, parent, sub);
    if d.cap != 0 { DeriveGrows(g, owner, parent, sub); } else { DeriveRefused(g, owner, parent, sub); }
  }

  lemma OtherRecords(t: Told, op: Op)
    requires Legal(t.s, op) && Numbered(t) && Lineage.Tidy(t.s.g) && !(Lineage.Makes(op) && Lineage.Accepted(t.s, op))
    requires Recorded(t) && (op.OpRevoke? ==> !Live(t.s.g, op.cap))
    ensures Numbered(Next(t, op)) && Recorded(Next(t, op))
  {
    hide Step, Legal, Lineage.Tidy, Lineage.Accepted, Numbered, From, Next, Subtree.Below, Live, Listed;
    OtherStepTrue(t, op);
    StepShrinks(t.s, op);
    OtherKeepsLists(t.s, op);
    var u := Next(t, op);
    forall x: CapId, y: CapId | Live(u.s.g, y) && Live(u.s.g, x) && From(u, x, y)
      ensures Subtree.Below(u.s.g, y, x)
    {
      BelowMore(t.s.g, u.s.g, y, x);
    }
  }

  lemma RevokeStep(s: State, cap: CapId)
    requires Lineage.Tidy(s.g) && Live(s.g, cap)
    ensures Legal(s, OpRevoke(cap)) && Step(s, OpRevoke(cap)).s.g == RevokeFrom(s.g, cap, 0).g
  {
    hide RevokeFrom, ReleaseAll;
  }

  /** In a forest a step leaves the record complete if and only if it is none of the two that part
      the record from history. */
  lemma RecordedStepIff(t: Told, op: Op)
    requires Legal(t.s, op) && Numbered(t) && ListsTrue(t) && Lineage.Tidy(t.s.g) && Forest.IsForest(t.s.g) && Recorded(t)
    ensures Numbered(Next(t, op)) && (Recorded(Next(t, op)) <==> !Parts(t.s, op))
  {
    hide Step, Legal, Lineage.Tidy, Lineage.Accepted, Numbered, From, Next, Subtree.Below, Subtree.Thin, Listed, Live,
      ListsTrue, Recorded, ForestBy, RevokeFrom, Room;
    NextNumbered(t, op);
    var rank :| ForestBy(t.s.g, rank);
    if Lineage.Makes(op) && Lineage.Accepted(t.s, op) {
      if Parts(t.s, op) { MakeParts(t, rank, op); } else { MakeRecords(t, op); }
    } else if op.OpRevoke? && Live(t.s.g, op.cap) {
      OtherStepTrue(t, op);
      RevokeStep(t.s, op.cap);
      var s := Step(t.s, op).s;
      if p: CapId :| Listed(t.s.g, p, op.cap) && !Subtree.Thin(t.s.g, op.cap) {
        RevokeParts(t, rank, op.cap, s, p);
      } else {
        RevokeRecords(t, rank, op.cap, s);
      }
    } else {
      OtherRecords(t, op);
    }
  }

  // ---------------------------------------------------------------- whole runs

  ghost function After(t: Told, ops: seq<Op>): (r: Told)
    requires LegalRun(t.s, ops) && Numbered(t) && Lineage.Tidy(t.s.g)
    ensures Numbered(r) && Lineage.Tidy(r.s.g) && r.s == Run(t.s, ops)
    decreases |ops|
  {
    if ops == [] then t
    else
      NextNumbered(t, ops[0]);
      Lineage.StepTidy(t.s, ops[0]);
      After(Next(t, ops[0]), ops[1..])
  }

  lemma StartTold(keys: seq<Key>)
    requires |keys| == HIC_DOMAIN_MAX
    ensures Start(keys).s == Init(keys) && Lineage.Tidy(Init(keys).g)
    ensures Numbered(Start(keys)) && ListsTrue(Start(keys)) && Recorded(Start(keys))
  {
  }

  /** No step of the run hands out a slot that old lists still name. */
  ghost predicate NeverMisnames(t: Told, ops: seq<Op>)
    requires LegalRun(t.s, ops) && Numbered(t) && Lineage.Tidy(t.s.g)
    decreases |ops|
  {
    if ops == [] then true
    else
      NextNumbered(t, ops[0]);
      Lineage.StepTidy(t.s, ops[0]);
      !Misnames(t, ops[0]) && NeverMisnames(Next(t, ops[0]), ops[1..])
  }

  lemma {:induction false} ListsTrueRun(t: Told, ops: seq<Op>)
    requires LegalRun(t.s, ops) && Numbered(t) && Lineage.Tidy(t.s.g) && ListsTrue(t) && NeverMisnames(t, ops)
    ensures ListsTrue(After(t, ops))
    decreases |ops|
  {
    hide Step, Legal, Lineage.Tidy, Numbered, ListsTrue, Misnames, Next;
    if ops != [] {
      NextNumbered(t, ops[0]);
      Lineage.StepTidy(t.s, ops[0]);
      ListsTrueIff(t, ops[0]);
      ListsTrueRun(Next(t, ops[0]), ops[1..]);
    }
  }

  /** After every run of every mix of operations that never hands out such a slot, everything a
      revocation frees derives from the capability revoked. */
  lemma FreedDerivesAfterRun(keys: seq<Key>, ops: seq<Op>, cap: CapId, x: CapId)
    requires |keys| == HIC_DOMAIN_MAX && LegalRun(Init(keys), ops)
    ensures Numbered(Start(keys)) && Lineage.Tidy(Init(keys).g)
    ensures var t := After(Start(keys), ops);
            NeverMisnames(Start(keys), ops) && Live(t.s.g, cap) && x in RevokeFrom(t.s.g, cap, 0).freed ==> From(t, x, cap)
  {
    hide Run, LegalRun, After, Lineage.Tidy, Numbered, ListsTrue, NeverMisnames, Start, Recorded, RevokeFrom, From, Shrunk;
    StartTold(keys);
    var t := After(Start(keys), ops);
    if NeverMisnames(Start(keys), ops) && Live(t.s.g, cap) {
      ListsTrueRun(Start(keys), ops);
      ShrunkSelf(t.s.g);
      FreedDerives(t, t.s.g, cap, 0);
    }
  }

  /** Over runs that do not tangle the links, the lists tell the truth. */
  lemma {:induction false} ForestTold(t: Told, ops: seq<Op>)
    requires LegalRun(t.s, ops) && Numbered(t) && Forest.Grounded(t.s.g) && Lineage.Tidy(t.s.g) && ListsTrue(t)
    requires Forest.IsForest(t.s.g) && Forest.Untangled(t.s, ops)
    ensures ListsTrue(After(t, ops)) && Forest.IsForest(After(t, ops).s.g)
    decreases |ops|
  {
    hide Step, Legal, Lineage.Tidy, Numbered, ListsTrue, Misnames, Next, Forest.IsForest, Forest.Tangles, Forest.Grounded;
    if ops != [] {
      NextNumbered(t, ops[0]);
      Lineage.StepTidy(t.s, ops[0]);
      ForestNames(t, ops[0]);
      ListsTrueIff(t, ops[0]);
      Forest.StepGrounded(t.s, ops[0]);
      Forest.ForestStepIff(t.s, ops[0]);
      ForestTold(Next(t, ops[0]), ops[1..]);
    }
  }

  /** After every run that does not tangle the links: everything a revocation frees derives from the
      capability revoked, and nothing that derives from it stays alive if and only if its recorded
      subtree is thin and everything alive that derives from it is recorded below it. */
  lemma DerivedGoneAfterRun(keys: seq<Key>, ops: seq<Op>, cap: CapId)
    requires |keys| == HIC_DOMAIN_MAX && LegalRun(Init(keys), ops) && Forest.Untangled(Init(keys), ops)
    ensures Numbered(Start(keys)) && Lineage.Tidy(Init(keys).g)
    ensures var t := After(Start(keys), ops);
            Live(t.s.g, cap) ==>
              var h := Revoke(t.s, cap).s.g;
              && (forall x: CapId :: Live(t.s.g, x) && !Live(h, x) ==> From(t, x, cap))
              && ((forall x: CapId :: Live(h, x) ==> !From(t, x, cap))
                  <==> Subtree.Thin(t.s.g, cap) && AllRecorded(t, cap))
  {
    hide Run, LegalRun, After, Lineage.Tidy, Numbered, ListsTrue, Start, Recorded, RevokeFrom, From, Shrunk,
      Forest.Untangled, ForestBy, Subtree.Thin, AllRecorded, Subtree.Below, Revoke, Swept;
    StartTold(keys);
    Forest.InitForest(keys);
    ForestTold(Start(keys), ops);
    var t := After(Start(keys), ops);
    if Live(t.s.g, cap) {
      var rank :| ForestBy(t.s.g, rank);
      DerivedGoneIff(t, rank, cap);
      ShrunkSelf(t.s.g);
      FreedDerives(t, t.s.g, cap, 0);
      RevokeStep(t.s, cap);
      Handles.StepRevoke(t.s, cap);
      RevokeFromSweeps(t.s.g, cap, 0);
      OnlyFreedDies(t.s.g, RevokeFrom(t.s.g, cap, 0));
    }
  }

  lemma OnlyFreedDies(g: Graph, w: Sweep)
    requires Swept(g, w)
    ensures forall x: CapId :: Live(g, x) && !Live(w.g, x) ==> x in w.freed
  {
  }

  /** No step of the run parts the record from history. */
  ghost predicate NeverParts(s: State, ops: seq<Op>)
    requires LegalRun(s, ops)
    decreases |ops|
  {
    ops == [] || (!Parts(s, ops[0]) && NeverParts(Step(s, ops[0]).s, ops[1..]))
  }

  lemma {:induction false} RecordedRun(t: Told, ops: seq<Op>)
    requires LegalRun(t.s, ops) && Numbered(t) && Forest.Grounded(t.s.g) && Lineage.Tidy(t.s.g) && ListsTrue(t)
    requires Forest.IsForest(t.s.g) && Forest.Untangled(t.s, ops) && Recorded(t) && NeverParts(t.s, ops)
    ensures Recorded(After(t, ops))
    decreases |ops|
  {
    hide Step, Legal, Lineage.Tidy, Numbered, ListsTrue, Misnames, Next, Forest.IsForest, Forest.Tangles, Forest.Grounded,
      Recorded, Parts;
    if ops != [] {
      NextNumbered(t, ops[0]);
      Lineage.StepTidy(t.s, ops[0]);
      ForestNames(t, ops[0]);
      ListsTrueIff(t, ops[0]);
      RecordedStepIff(t, ops[0]);
      Forest.StepGrounded(t.s, ops[0]);
      Forest.ForestStepIff(t.s, ops[0]);
      RecordedRun(Next(t, ops[0]), ops[1..]);
    }
  }

  /** After every run that neither tangles the links nor parts them from history, revocation keeps
      its promise if and only if the recorded subtree is thin. */
  lemma PromiseKeptIff(keys: seq<Key>, ops: seq<Op>, cap: CapId)
    requires |keys| == HIC_DOMAIN_MAX && LegalRun(Init(keys), ops)
    requires Forest.Untangled(Init(keys), ops) && NeverParts(Init(keys), ops)
    ensures Numbered(Start(keys)) && Lineage.Tidy(Init(keys).g)
    ensures var t := After(Start(keys), ops);
            Live(t.s.g, cap) ==>
              ((forall x: CapId :: Live(Revoke(t.s, cap).s.g, x) ==> !From(t, x, cap)) <==> Subtree.Thin(t.s.g, cap))
  {
    hide Run, LegalRun, After, Lineage.Tidy, Numbered, ListsTrue, Start, RevokeFrom, From,
      Forest.Untangled, ForestBy, Subtree.Thin, AllRecorded, Revoke, NeverParts;
    StartTold(keys);
    Forest.InitForest(keys);
    RecordedRun(Start(keys), ops);
    DerivedGoneAfterRun(keys, ops, cap);
  }

  lemma AfterCons(t: Told, op: Op, rest: seq<Op>)
    requires Legal(t.s, op) && Numbered(t) && Lineage.Tidy(t.s.g) && LegalRun(Step(t.s, op).s, rest)
    ensures LegalRun(t.s, [op] + rest) && Numbered(Next(t, op)) && Next(t, op).s == Step(t.s, op).s
    ensures Lineage.Tidy(Next(t, op).s.g) && After(t, [op] + rest) == After(Next(t, op), rest)
  {
    hide Step, Legal, Lineage.Tidy, Numbered, Next;
    NextNumbered(t, op);
    Lineage.StepTidy(t.s, op);
    RunCons(t.s, op, rest);
    assert ([op] + rest)[1..] == rest;
  }

  lemma AfterNothing(t: Told)
    requires Numbered(t) && Lineage.Tidy(t.s.g)
    ensures LegalRun(t.s, []) && After(t, []) == t
  {
  }

  /** Slots 1 to 4 hold a capability, one derived from it, and two derived from that. */
  ghost predicate Family(t: Told) {
    && Numbered(t) && Lineage.Tidy(t.s.g)
    && (forall c :: 1 <= c <= 4 ==> Live(t.s.g, c)) && t.born[1] == 1 && t.born[4] == 4 && t.sources == [0, 1, 1, 2, 2]
    && t.s.g.links[1] == Link(0, [2]) && t.s.g.links[2] == Link(1, [3, 4]) && t.s.g.links[3] == Link(2, [])
  }

  /** Revoking the middle one leaves the last one alive and unrecorded: the subtree of the first is
      then thin, and revoking the first does not reach it. */
  lemma FamilyLost(t: Told)
    requires Family(t)
    ensures Legal(t.s, OpRevoke(2)) && Numbered(Next(t, OpRevoke(2)))
    ensures var u := Next(t, OpRevoke(2));
            && Live(u.s.g, 1) && Live(u.s.g, 4) && From(u, 4, 1) && Subtree.Thin(u.s.g, 1)
            && Live(Revoke(u.s, 1).s.g, 4)
  {
    var g, op := t.s.g, OpRevoke(2);
    hide RevokeFrom, ReleaseAll, Step, Numbered, From, Next, Lineage.Tidy;
    RevokeStep(t.s, 2);
    Forest.SecondLeafTables(g, 2, 3, 4);
    NextNumbered(t, op);
    Lineage.StepTidy(t.s, op);
    OtherStepTrue(t, op);
    var u := Next(t, op);
    var h := u.s.g;
    assert SwapRemove([2], 2) == [];
    assert h.links[1] == Link(0, []);
    LeafThin(h, 1);
    FamilyFrom(t);
    Forest.RevokeLeaf(h, 1);
    RevokeStep(u.s, 1);
    Handles.StepRevoke(u.s, 1);
  }

  lemma LeafThin(g: Graph, cap: CapId)
    requires 1 <= cap < CAP_TABLE_SIZE && g.links[cap].children == []
    ensures Subtree.Thin(g, cap)
  {
    forall path: seq<CapId> | Subtree.IsPath(g, path) && path[0] == cap
      ensures |path| == 1
    {
      assert |path| > 1 ==> Listed(g, path[0], path[0 + 1]);
    }
  }

  lemma FamilyFrom(t: Told)
    requires Family(t)
    ensures From(t, 4, 1)
  {
    assert Derives(t.sources, 2, 1) && Derives(t.sources, 4, 1);
  }

  /** The first `n` slots hold capabilities of domain 1 with at least one right, numbered like their
      slots; the others are free. */
  ghost predicate FirstSlots(t: Told, n: nat) {
    && Numbered(t) && Lineage.Tidy(t.s.g) && n < CAP_TABLE_SIZE && |t.sources| == n + 1
    && (forall c :: 1 <= c <= n ==> t.s.g.table[c].id == c && t.s.g.table[c].owner == 1
                                    && Subset(1, t.s.g.table[c].rights) && t.born[c] == c)
    && (forall c :: n < c < CAP_TABLE_SIZE ==> t.s.g.table[c].id == 0 && t.s.g.links[c] == Link(0, []))
  }

  lemma FirstFree(t: Told, n: nat)
    requires FirstSlots(t, n) && n + 1 < CAP_TABLE_SIZE
    ensures FirstZero(t.s.g.table, 1) == n + 1 && FirstMismatch(t.s.g.table, 0) == n + 1
  {
    hide Subset, Numbered;
    Lineage.AllocatorsAgree(t.s.g);
    assert t.s.g.table[n + 1].id == 0;
  }

  lemma DeriveNext(t: Told, n: nat, parent: CapId)
    requires FirstSlots(t, n) && n + 1 < CAP_TABLE_SIZE && 1 <= parent <= n && Room(t.s.g, parent)
    ensures var op := OpDerive(1, parent, 1); var u := Next(t, op);
            && FirstSlots(u, n + 1) && u.sources == t.sources + [parent]
            && u.s.g.links == t.s.g.links[parent := Record(t.s.g.links[parent], n + 1)][n + 1 := Link(parent, [])]
  {
    var op := OpDerive(1, parent, 1);
    FirstFree(t, n);
    assert !Exceeds(1, t.s.g.table[parent].rights) by { Lineage.RightsTestsAgree(1, t.s.g.table[parent].rights); }
    NextNumbered(t, op);
    Lineage.StepTidy(t.s, op);
    OneRight();
    hide Subset, Exceeds, Numbered, FirstZero, FirstMismatch, Record, Lineage.Tidy;
    var u := Next(t, op);
    assert u.s.g.table == t.s.g.table[n + 1 := Entry(n + 1, 1, 1, false, t.s.g.table[parent].res)];
    assert u.born == t.born[n + 1 := n + 1];
  }

  lemma OneRight()
    ensures Subset(1, 1) && Subset(1, 3)
  {
  }

  lemma CreateFirst(keys: seq<Key>)
    requires |keys| == HIC_DOMAIN_MAX
    ensures var op := OpCreate(1, MemoryCap(0x1000, 0x1000, 3));
            && Numbered(Start(keys)) && Lineage.Tidy(Init(keys).g)
            && var t := Next(Start(keys), op); FirstSlots(t, 1) && t.sources == [0, 1] && t.s.g.links == Init(keys).g.links
  {
    var op := OpCreate(1, MemoryCap(0x1000, 0x1000, 3));
    StartTold(keys);
    OneRight();
    NextNumbered(Start(keys), op);
    Lineage.StepTidy(Init(keys), op);
    hide Subset, Numbered, Lineage.Tidy;
    assert Step(Init(keys), op).cap == 1;
    var t := Next(Start(keys), op);
    assert t.s.g.table == Init(keys).g.table[1 := Entry(1, 3, 1, false, Memory(0x1000, 0x1000))];
  }

  /** The family while it grows: one, two and three members. */
  ghost predicate Parent(t: Told) {
    FirstSlots(t, 1) && t.sources == [0, 1] && t.s.g.links[1] == Link(0, [])
  }

  ghost predicate Couple(t: Told) {
    && FirstSlots(t, 2) && t.sources == [0, 1, 1]
    && t.s.g.links[1] == Link(0, [2]) && t.s.g.links[2] == Link(1, [])
  }

  ghost predicate Trio(t: Told) {
    && FirstSlots(t, 3) && t.sources == [0, 1, 1, 2]
    && t.s.g.links[1] == Link(0, [2]) && t.s.g.links[2] == Link(1, [3]) && t.s.g.links[3] == Link(2, [])
  }

  lemma CoupleMade(t: Told)
    requires Parent(t) && Numbered(t)
    ensures Couple(Next(t, OpDerive(1, 1, 1)))
  {
    hide Next, Numbered, FirstSlots;
    DeriveNext(t, 1, 1);
  }

  lemma TrioMade(t: Told)
    requires Couple(t) && Numbered(t)
    ensures Trio(Next(t, OpDerive(1, 2, 1)))
  {
    hide Next, Numbered, FirstSlots;
    DeriveNext(t, 2, 2);
  }

  lemma FamilyMade(t: Told)
    requires Trio(t) && Numbered(t)
    ensures Family(Next(t, OpDerive(1, 2, 1)))
  {
    hide Next, Numbered, FirstSlots, Live;
    DeriveNext(t, 3, 2);
    FirstSlotsKnown(Next(t, OpDerive(1, 2, 1)), 4);
  }

  lemma FirstSlotsKnown(t: Told, n: nat)
    requires FirstSlots(t, n)
    ensures Numbered(t) && Lineage.Tidy(t.s.g) && forall c :: 1 <= c <= n ==> Live(t.s.g, c) && t.born[c] == c
  {
    hide Numbered, Subset, Lineage.Tidy;
  }

  lemma UntangledCons(s: State, op: Op, rest: seq<Op>)
    requires Legal(s, op) && !Forest.Tangles(s, op) && Forest.Untangled(Step(s, op).s, rest)
    ensures Forest.Untangled(s, [op] + rest)
  {
    hide Step, Legal, Forest.Tangles;
    assert ([op] + rest)[1..] == rest;
  }

  /** A run of derivations and one revocation reaches that case, with no link tangled on the way. */
  lemma GrandchildLost(keys: seq<Key>)
    requires |keys| == HIC_DOMAIN_MAX
    ensures var ops := [OpCreate(1, MemoryCap(0x1000, 0x1000, 3))]
                       + ([OpDerive(1, 1, 1)] + ([OpDerive(1, 2, 1)] + ([OpDerive(1, 2, 1)] + ([OpRevoke(2)] + []))));
            && LegalRun(Init(keys), ops) && Forest.Untangled(Init(keys), ops)
            && Numbered(Start(keys)) && Lineage.Tidy(Init(keys).g)
            && var t := After(Start(keys), ops);
               && Live(t.s.g, 1) && Live(t.s.g, 4) && From(t, 4, 1) && Subtree.Thin(t.s.g, 1)
               && Live(Revoke(t.s, 1).s.g, 4)
  {
    var make, one, two, drop := OpCreate(1, MemoryCap(0x1000, 0x1000, 3)), OpDerive(1, 1, 1), OpDerive(1, 2, 1), OpRevoke(2);
    StartTold(keys);
    CreateFirst(keys);
    var t0 := Start(keys);
    var t1 := Next(t0, make);
    assert Parent(t1);
    hide Step, Numbered, Lineage.Tidy, After, LegalRun, From, Next, Subtree.Thin, Revoke, Start, Run, Family, Live,
      Forest.Untangled, Parent, Couple, Trio;
    NextTidy(t0, make);
    CoupleMade(t1);
    NextTidy(t1, one);
    var t2 := Next(t1, one);
    TrioMade(t2);
    NextTidy(t2, two);
    var t3 := Next(t2, two);
    FamilyMade(t3);
    NextTidy(t3, two);
    var t4 := Next(t3, two);
    FamilyLost(t4);
    LastStep(t4, drop);
    var r1 := [drop] + [];
    NextStep(t3, two, r1);
    var r2 := [two] + r1;
    NextStep(t2, two, r2);
    var r3 := [two] + r2;
    NextStep(t1, one, r3);
    NextStep(t0, make, [one] + r3);
  }

  lemma NextTidy(t: Told, op: Op)
    requires Legal(t.s, op) && Numbered(t) && Lineage.Tidy(t.s.g)
    ensures Numbered(Next(t, op)) && Lineage.Tidy(Next(t, op).s.g)
  {
    hide Step, Numbered, Lineage.Tidy, Next;
    NextNumbered(t, op);
    Lineage.StepTidy(t.s, op);
  }

  lemma NextStep(t: Told, op: Op, rest: seq<Op>)
    requires (op.OpCreate? || op.OpDerive? || op.OpRevoke?) && Numbered(t) && Lineage.Tidy(t.s.g)
    requires LegalRun(Next(t, op).s, rest) && Forest.Untangled(Next(t, op).s, rest)
    ensures LegalRun(t.s, [op] + rest) && Forest.Untangled(t.s, [op] + rest)
    ensures Numbered(Next(t, op)) && Lineage.Tidy(Next(t, op).s.g) && After(t, [op] + rest) == After(Next(t, op), rest)
  {
    hide Step, Numbered, Lineage.Tidy, After, LegalRun, Next, Forest.Untangled;
    NextNumbered(t, op);
    UntangledCons(t.s, op, rest);
    AfterCons(t, op, rest);
  }

  lemma LastStep(t: Told, op: Op)
    requires (op.OpCreate? || op.OpDerive? || op.OpRevoke?) && Numbered(t) && Lineage.Tidy(t.s.g)
    ensures LegalRun(t.s, [op] + []) && Forest.Untangled(t.s, [op] + []) && After(t, [op] + []) == Next(t, op)
  {
    hide Step, Numbered, Lineage.Tidy, Next;
    NextNumbered(t, op);
    Lineage.StepTidy(t.s, op);
    AfterNothing(Next(t, op));
    NextStep(t, op, []);
  }
}
