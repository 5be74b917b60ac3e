/** Handles: what passes the access checks, and for how long. */
module Handles {
  import opened Capability
  import opened Operations
  import Revocation
  import Lineage

  /** The rights test of both checks. */
  predicate Tested(rights: Rights, required: Rights) {
    rights & required == required
  }

  lemma TestedIsSubset(rights: Rights, required: Rights)
    ensures Tested(rights, required) <==> Subset(required, rights)
  {
  }

  /** `cap_check_access` */
  function CheckAccess(s: State, domain: DomainId, handle: nat, required: Rights): Status
    requires domain < HIC_DOMAIN_MAX
  {
    var cap := HandleCap(handle);
    if handle == 0 || cap >= CAP_TABLE_SIZE then InvalidParam
    else if s.g.table[cap].id != cap then CapInvalid
    else if s.g.table[cap].revoked then CapRevoked
    else if !Tested(s.g.table[cap].rights, required) then Permission
    else if !TokenValid(s.keys, domain, handle) then Permission
    else Success
  }

  /** `cap_fast_check`, which has no bounds check of its own. */
  predicate FastCheck(s: State, domain: DomainId, handle: nat, required: Rights)
    requires domain < HIC_DOMAIN_MAX && HandleCap(handle) < CAP_TABLE_SIZE
  {
    var cap := HandleCap(handle);
    var e := s.g.table[cap];
    var valid := e.id == cap && !e.revoked && Tested(e.rights, required);
    valid && handle / U32 == Token(s.keys[domain], cap)
  }

  /** `cap_grant` */
  function Grant(s: State, domain: DomainId, cap: CapId): (Status, nat) {
    if domain >= HIC_DOMAIN_MAX || cap >= CAP_TABLE_SIZE then (InvalidParam, 0)
    else if s.g.table[cap].id != cap then (CapInvalid, 0)
    else (Success, MakeHandle(s.keys[domain], cap))
  }

  /** A handle splits back into the id and the token it was made of. */
  lemma HandleParts(token: nat, cap: CapId)
    requires cap < U32
    ensures HandleCap(token * U32 + cap) == cap
    ensures (token * U32 + cap) / U32 == token
  {
  }

  /** The top bit of a token is set, so no handle is the invalid handle 0. */
  lemma TokenNonzero(k: Key, cap: CapId)
    requires cap < U32
    ensures Token(k, cap) != 0
  {
    hide TokenBits;
    var bits := TokenBits(k, cap as bv32);
    assert bits != 0 by { TopBit(k, cap as bv32); }
    NonzeroBits(bits);
  }

  lemma TopBit(k: Key, cap: bv32)
    ensures TokenBits(k, cap) & 0x8000_0000 != 0
  {
  }

  lemma NonzeroBits(bits: bv32)
    requires bits != 0
    ensures bits as nat != 0
  {
    assert (bits as nat) as bv32 == bits;
  }

  lemma MadeHandle(keys: seq<Key>, domain: DomainId, cap: CapId)
    requires domain < |keys| && 1 <= cap < U32
    ensures var h := MakeHandle(keys[domain], cap);
            h != 0 && HandleCap(h) == cap && TokenValid(keys, domain, h)
  {
    hide Token;
    HandleParts(Token(keys[domain], cap), cap);
  }

  /** A handle made for a domain passes for it exactly while the slot holds a capability, and for
      exactly the subsets of that capability's rights. */
  lemma HandlePassesIff(s: State, domain: DomainId, cap: CapId, required: Rights)
    requires Lineage.Tidy(s.g) && domain < HIC_DOMAIN_MAX && 1 <= cap < CAP_TABLE_SIZE
    ensures CheckAccess(s, domain, MakeHandle(s.keys[domain], cap), required) == Success <==>
            Live(s.g, cap) && Subset(required, s.g.table[cap].rights)
  {
    hide Token, TokenValid, HandleCap, MakeHandle, Subset, Tested;
    MadeHandle(s.keys, domain, cap);
    TestedIsSubset(s.g.table[cap].rights, required);
  }

  /** The short check and the full check agree on every handle in range. */
  lemma FastAgrees(s: State, domain: DomainId, handle: nat, required: Rights)
    requires domain < HIC_DOMAIN_MAX && HandleCap(handle) < CAP_TABLE_SIZE
    ensures FastCheck(s, domain, handle, required) <==> CheckAccess(s, domain, handle, required) == Success
  {
    hide Token;
    if handle == 0 { TokenNonzero(s.keys[domain], 0); }
  }

  /** No operation of the run hands out slot `c`. */
  predicate NeverHandedOut(s: State, ops: seq<Op>, c: CapId)
    requires LegalRun(s, ops)
    decreases |ops|
  {
    ops == [] || (Step(s, ops[0]).cap != c && NeverHandedOut(Step(s, ops[0]).s, ops[1..], c))
  }

  lemma StaysFree(s: State, op: Op, c: CapId)
    requires Legal(s, op) && Lineage.Tidy(s.g) && 1 <= c < CAP_TABLE_SIZE
    requires !Live(s.g, c) && Step(s, op).cap != c
    ensures !Live(Step(s, op).s.g, c)
  {
    hide Step, Legal;
    Lineage.StepOthersKept(s, op);
  }

  lemma {:induction false} RunStaysFree(s: State, ops: seq<Op>, c: CapId)
    requires LegalRun(s, ops) && Lineage.Tidy(s.g) && 1 <= c < CAP_TABLE_SIZE
    requires !Live(s.g, c) && NeverHandedOut(s, ops, c)
    ensures !Live(Run(s, ops).g, c)
    decreases |ops|
  {
    hide Step, Legal, Lineage.Tidy;
    if ops != [] {
      StaysFree(s, ops[0], c);
      Lineage.StepTidy(s, ops[0]);
      RunStaysFree(Step(s, ops[0]).s, ops[1..], c);
    }
  }

  /** Revocation takes effect at once and for good: after it, and after every further run that does
      not hand the slot out again, no handle naming that slot passes for any domain or right. */
  lemma RevokedHandlesRefused(s: State, cap: CapId, ops: seq<Op>, domain: DomainId, handle: nat, required: Rights)
    requires Lineage.Tidy(s.g) && Live(s.g, cap) && domain < HIC_DOMAIN_MAX && HandleCap(handle) == cap
    requires LegalRun(Revoke(s, cap).s, ops) && NeverHandedOut(Revoke(s, cap).s, ops, cap)
    ensures Revoke(s, cap).status == Success
    ensures CheckAccess(Run(Revoke(s, cap).s, ops), domain, handle, required) != Success
  {
    hide RevokeFrom, ReleaseAll, Run, LegalRun, NeverHandedOut, Token, Step;
    Revocation.RevokeFromSweeps(s.g, cap, 0);
    Lineage.StepTidy(s, OpRevoke(cap));
    assert Step(s, OpRevoke(cap)) == Revoke(s, cap) by { StepRevoke(s, cap); }
    RunStaysFree(Revoke(s, cap).s, ops, cap);
  }

  lemma StepRevoke(s: State, cap: CapId)
    ensures Legal(s, OpRevoke(cap)) && Step(s, OpRevoke(cap)) == Revoke(s, cap)
  {
    hide Revoke;
  }

  // ---------------------------------------------------------------- granted handles

  /** The run leaves the key of the domain alone. */
  predicate KeepsKey(ops: seq<Op>, domain: DomainId) {
    forall k :: 0 <= k < |ops| ==> !(ops[k].OpRekey? && ops[k].domain == domain)
  }

  lemma StepKeys(s: State, op: Op, domain: DomainId)
    requires Legal(s, op) && domain < HIC_DOMAIN_MAX && !(op.OpRekey? && op.domain == domain)
    ensures Step(s, op).s.keys[domain] == s.keys[domain]
  {
    hide Create, Derive, DeriveWithPolicy, Attenuate, Transfer, RevokeFrom, ReleaseAll, AddRef, DropRef, FreeFrames,
      FindRegion, Pages, TokenValid, HandleCap, FirstUnstarted, AllowedPolicies, CanCreate;
  }

  lemma {:induction false} RunKeys(s: State, ops: seq<Op>, domain: DomainId)
    requires LegalRun(s, ops) && domain < HIC_DOMAIN_MAX && KeepsKey(ops, domain)
    ensures Run(s, ops).keys[domain] == s.keys[domain]
    decreases |ops|
  {
    hide Step, Legal;
    if ops != [] {
      StepKeys(s, ops[0], domain);
      RunKeys(Step(s, ops[0]).s, ops[1..], domain);
    }
  }

  /** A handle that was granted passes, over every run that keeps the key of the domain, exactly
      while its slot holds a capability, and for exactly the subsets of the rights of that one. */
  lemma GrantedPassesIff(s: State, domain: DomainId, cap: CapId, ops: seq<Op>, required: Rights)
    requires Lineage.Tidy(s.g) && 1 <= cap && Grant(s, domain, cap).0 == Success && LegalRun(s, ops) && KeepsKey(ops, domain)
    ensures domain < HIC_DOMAIN_MAX && cap < CAP_TABLE_SIZE && Live(s.g, cap)
    ensures var t := Run(s, ops);
            CheckAccess(t, domain, Grant(s, domain, cap).1, required) == Success
            <==> Live(t.g, cap) && Subset(required, t.g.table[cap].rights)
  {
    hide Run, LegalRun, CheckAccess, MakeHandle, Subset, KeepsKey, Lineage.Tidy;
    RunKeys(s, ops, domain);
    Lineage.RunTidy(s, ops);
    HandlePassesIff(Run(s, ops), domain, cap, required);
  }

  /** The handle does not tell two occupants of a slot apart: once the slot is handed out again, the
      old handle passes for the new capability, here one of another domain. */
  lemma OldHandlePasses(keys: seq<Key>)
    requires |keys| == HIC_DOMAIN_MAX
    ensures var s1 := Step(Init(keys), OpCreate(1, ThreadCap(7))).s;
            var handle := Grant(s1, 1, 1).1;
            var s2 := Step(s1, OpRevoke(1)).s;
            var s3 := Step(s2, OpCreate(2, ThreadCap(8))).s;
            && Grant(s1, 1, 1).0 == Success
            && CheckAccess(s2, 1, handle, CAP_TYPE_THREAD) != Success
            && s3.g.table[1].owner == 2 && CheckAccess(s3, 1, handle, CAP_TYPE_THREAD) == Success
  {
    hide RevokeFrom, ReleaseAll, CheckAccess, MakeHandle, Lineage.Tidy;
    var s0: State := Init(keys);
    var s1 := Step(s0, OpCreate(1, ThreadCap(7))).s;
    assert Lineage.Tidy(s0.g) by { InitTidy(keys); }
    assert s1.g.table[1] == Entry(1, CAP_TYPE_THREAD, 1, false, Thread(7));
    Lineage.StepTidy(s0, OpCreate(1, ThreadCap(7)));
    var s2 := Step(s1, OpRevoke(1)).s;
    Revocation.RevokeFromSweeps(s1.g, 1, 0);
    Lineage.StepTidy(s1, OpRevoke(1));
    assert s2.g.table[1].id == 0;
    var s3 := Step(s2, OpCreate(2, ThreadCap(8))).s;
    Lineage.StepTidy(s2, OpCreate(2, ThreadCap(8)));
    assert s3.g.table[1] == Entry(1, CAP_TYPE_THREAD, 2, false, Thread(8));
    Lineage.SubsetSelf(CAP_TYPE_THREAD);
    HandlePassesIff(s2, 1, 1, CAP_TYPE_THREAD);
    HandlePassesIff(s3, 1, 1, CAP_TYPE_THREAD);
  }

  lemma InitTidy(keys: seq<Key>)
    requires |keys| == HIC_DOMAIN_MAX
    ensures Lineage.Tidy(Init(keys).g)
  {
  }
}
