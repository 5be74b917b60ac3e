/** What the flow operations, the switch and the scheduler do to the thread they name, and what they
    do to the capabilities. */
module FlowEffects {
  import opened Capability
  import opened ExecFlow
  import Operations
  import Lineage
  import Handles
  import Revocation
  import Access

  // ---------------------------------------------------------------- capabilities along a run

  /** The capability operation a step amounts to, if any. */
  function CapsOp(m: Machine, op: Op): Option<Operations.Op> {
    match op
    case OpCreate(domain, Some(t)) =>
      if domain < HIC_DOMAIN_MAX then Some(Operations.OpCreate(domain, Operations.ThreadCap(t))) else None
    case OpDestroy(efc) => if ValidFlow(m.caps.g, efc) then Some(Operations.OpRevoke(efc)) else None
    case OpCaps(o) => Some(o)
    case _ => None
  }

  /** What a step does to the capabilities is what that operation does, so everything proved of
      capability operations holds along runs of the machine. */
  lemma CapsStep(m: Machine, op: Op)
    requires Legal(m, op)
    ensures CapsOp(m, op).Some? ==> Operations.Legal(m.caps, CapsOp(m, op).value)
    ensures Step(m, op).caps
            == if CapsOp(m, op).Some? then Operations.Step(m.caps, CapsOp(m, op).value).s else m.caps
  {
    hide ThreadOf, ValidFlow, Operations.Revoke, FirstZero, Pick;
    if op.OpCaps? { hide Operations.Step; }
  }

  ghost function CapsOps(m: Machine, ops: seq<Op>): seq<Operations.Op>
    requires LegalRun(m, ops)
    decreases |ops|
  {
    if ops == [] then []
    else
      (if CapsOp(m, ops[0]).None? then [] else [CapsOp(m, ops[0]).value]) + CapsOps(Step(m, ops[0]), ops[1..])
  }

  /** So the capabilities after a run of the machine are those after a run of capability operations. */
  lemma {:induction false} CapsRun(m: Machine, ops: seq<Op>)
    requires LegalRun(m, ops)
    ensures Operations.LegalRun(m.caps, CapsOps(m, ops))
    ensures Run(m, ops).caps == Operations.Run(m.caps, CapsOps(m, ops))
    decreases |ops|
  {
    hide Legal, Step, CapsOp, Operations.Step, Operations.Legal;
    if ops != [] {
      var rest := CapsOps(Step(m, ops[0]), ops[1..]);
      CapsStep(m, ops[0]);
      CapsRun(Step(m, ops[0]), ops[1..]);
      if CapsOp(m, ops[0]).Some? { Operations.RunCons(m.caps, CapsOp(m, ops[0]).value, rest); } else { assert [] + rest == rest; }
    }
  }

  /** The slot a step hands out, 0 when it hands out none. */
  function Given(m: Machine, op: Op): CapId
    requires Legal(m, op)
  {
    if CapsOp(m, op).None? then 0
    else
      CapsStep(m, op);
      Operations.Step(m.caps, CapsOp(m, op).value).cap
  }

  /** The run does not hand out slot `c`. */
  ghost predicate KeepsFree(m: Machine, ops: seq<Op>, c: CapId)
    requires LegalRun(m, ops)
    decreases |ops|
  {
    ops == [] || (Given(m, ops[0]) != c && KeepsFree(Step(m, ops[0]), ops[1..], c))
  }

  lemma StepStaysFree(m: Machine, op: Op, c: CapId)
    requires Legal(m, op) && Lineage.Tidy(m.caps.g) && 1 <= c < CAP_TABLE_SIZE && !Live(m.caps.g, c)
    requires Given(m, op) != c
    ensures Lineage.Tidy(Step(m, op).caps.g) && !Live(Step(m, op).caps.g, c)
  {
    hide Legal, Step, Operations.Step, Operations.Legal, Lineage.Tidy, CapsOp;
    CapsStep(m, op);
    if CapsOp(m, op).Some? {
      Handles.StaysFree(m.caps, CapsOp(m, op).value, c);
      Lineage.StepTidy(m.caps, CapsOp(m, op).value);
    }
  }

  lemma {:induction false} RunStaysFree(m: Machine, ops: seq<Op>, c: CapId)
    requires LegalRun(m, ops) && Lineage.Tidy(m.caps.g) && 1 <= c < CAP_TABLE_SIZE && !Live(m.caps.g, c)
    requires KeepsFree(m, ops, c)
    ensures !Live(Run(m, ops).caps.g, c)
    decreases |ops|
  {
    hide Legal, Step, Lineage.Tidy, Given;
    if ops != [] {
      StepStaysFree(m, ops[0], c);
      RunStaysFree(Step(m, ops[0]), ops[1..], c);
    }
  }

  // ---------------------------------------------------------------- destruction

  /** Nothing can be done through a flow whose slot is free. */
  lemma NoFlow(m: Machine, efc: CapId)
    requires efc >= 1 && !Live(m.caps.g, efc)
    ensures Dispatch(m, efc) == (BadCap, m) && Block(m, efc) == (BadCap, m) && Wake(m, efc) == (BadCap, m)
    ensures Destroy(m, efc) == (BadCap, m)
  {
  }

  /** Destroying a flow ends its thread, which is not current any more, and takes the capability. */
  lemma DestroyEnds(m: Machine, efc: CapId)
    requires Lineage.Tidy(m.caps.g) && efc >= 1 && Destroy(m, efc).0 == Fine
    ensures var n := Destroy(m, efc).1;
            && Lineage.Tidy(n.caps.g) && !Live(n.caps.g, efc)
            && (ThreadOf(m.caps.g, efc).Some? ==>
                  var t := ThreadOf(m.caps.g, efc).value; n.threads[t].phase == Terminated && n.current != At(t))
  {
    hide RevokeFrom, ReleaseAll, HasThreadRight;
    Revocation.RevokeFromSweeps(m.caps.g, efc, 0);
    Handles.StepRevoke(m.caps, efc);
    Lineage.StepTidy(m.caps, Operations.OpRevoke(efc));
  }

  /** From then on, over every run of any mix of operations that does not hand the slot out again,
      dispatching, blocking, waking and destroying it is refused. */
  lemma DestroyedStaysGone(m: Machine, efc: CapId, ops: seq<Op>)
    requires Lineage.Tidy(m.caps.g) && efc >= 1 && Destroy(m, efc).0 == Fine
    requires var n := Destroy(m, efc).1; LegalRun(n, ops) && KeepsFree(n, ops, efc)
    ensures var r := Run(Destroy(m, efc).1, ops);
            && Dispatch(r, efc) == (BadCap, r) && Block(r, efc) == (BadCap, r) && Wake(r, efc) == (BadCap, r)
            && Destroy(r, efc) == (BadCap, r)
  {
    assert efc < CAP_TABLE_SIZE;
    hide Destroy, Dispatch, Block, Wake, Lineage.Tidy, LegalRun, KeepsFree, Run;
    DestroyEnds(m, efc);
    RunStaysFree(Destroy(m, efc).1, ops, efc);
    NoFlow(Run(Destroy(m, efc).1, ops), efc);
  }

  // ---------------------------------------------------------------- creation

  /** A flow created names its thread, which is ready, in the domain asked for, with a full time slice;
      no other thread changes, and the flow can be dispatched.  When there is no room for the
      capability the thread has ended. */
  lemma SpawnNames(m: Machine, domain: DomainId, t: nat)
    requires Lineage.Tidy(m.caps.g) && t < MAX_THREADS && domain < HIC_DOMAIN_MAX
    ensures var r, efc := Spawn(m, domain, Some(t)), FirstZero(m.caps.g.table, 1);
            && r.1.threads == m.threads[t := r.1.threads[t]] && r.1.threads[t].id == t && r.1.threads[t].domain == domain
            && r.1.taken == m.taken + {t}
            && (if r.0 == Fine then
                  && Eligible(r.1.threads, t) && r.1.threads[t].slice == 100 && r.1.current == m.current
                  && 1 <= efc < CAP_TABLE_SIZE && !Live(m.caps.g, efc) && r.1.caps.g.table[efc].owner == domain
                  && ThreadOf(r.1.caps.g, efc) == Some(t) && Dispatch(r.1, efc).0 == Fine
                else
                  && r.0 == Failed(NoResource) && r.1.threads[t].phase == Terminated && r.1.caps == m.caps
                  && r.1.current == if m.current == At(t) then Nobody else m.current)
  {
    hide FirstZero;
    ThreadRight();
  }

  lemma ThreadRight()
    ensures HasThreadRight(CAP_TYPE_THREAD)
  {
  }

  // ---------------------------------------------------------------- dispatch, block, wake, yield

  /** The thread table but for one thread. */
  ghost predicate OnlyThread(ts: seq<Tcb>, us: seq<Tcb>, t: nat) {
    |ts| == |us| && forall i :: 0 <= i < |ts| && i != t ==> us[i] == ts[i]
  }

  /** A dispatch goes through exactly when the flow names a thread that has not ended.  That thread is
      then current and running, the one before it ready if it was running, and no other changes. */
  lemma DispatchIff(m: Machine, efc: CapId)
    ensures var named := ThreadOf(m.caps.g, efc); var r := Dispatch(m, efc);
            && (r.0 == BadCap <==> named.None?)
            && (r.0 == BadState <==> named.Some? && m.threads[named.value].phase == Terminated)
            && (r.0 == Fine <==> named.Some? && m.threads[named.value].phase != Terminated)
            && (r.0 != Fine ==> r.1 == m)
            && (r.0 == Fine ==>
                  && r.1.current == At(named.value) && r.1.flow == Some(efc)
                  && r.1.threads[named.value] == m.threads[named.value].(phase := Running)
                  && r.1.caps == m.caps && r.1.taken == m.taken && r.1.rows == m.rows && r.1.last == m.last
                  && (m.current == IdleThread && m.idle == Running ==> r.1.idle == Ready)
                  && (m.current != IdleThread ==> r.1.idle == m.idle)
                  && forall i :: 0 <= i < MAX_THREADS && i != named.value ==>
                       r.1.threads[i] == if m.current == At(i) && m.threads[i].phase == Running
                                         then m.threads[i].(phase := Ready) else m.threads[i])
  {
    hide ThreadOf;
  }

  /** Blocking and then waking a flow leaves its thread ready, whatever it was before, and changes no
      other thread; in between it cannot be scheduled, and waking it twice is refused. */
  lemma BlockThenWake(m: Machine, efc: CapId)
    requires ThreadOf(m.caps.g, efc).Some?
    ensures var t := ThreadOf(m.caps.g, efc).value; var b := Block(m, efc); var w := Wake(b.1, efc);
            && b.0 == Fine && b.1.threads[t].phase == Blocked && !Eligible(b.1.threads, t)
            && OnlyThread(m.threads, b.1.threads, t) && b.1.flow == None && b.1.current == m.current && b.1.caps == m.caps
            && w.0 == Fine && w.1.threads[t] == m.threads[t].(phase := Ready)
            && w.1 == b.1.(threads := w.1.threads) && OnlyThread(m.threads, w.1.threads, t)
            && (m.threads[t].id == t ==> Eligible(w.1.threads, t))
            && Wake(w.1, efc) == (BadState, w.1)
  {
    hide ThreadOf;
  }

  /** Waking goes through exactly for blocked and waiting threads. */
  lemma WakeIff(m: Machine, efc: CapId)
    ensures var named := ThreadOf(m.caps.g, efc); var r := Wake(m, efc);
            && (r.0 == BadCap <==> named.None?)
            && (r.0 == Fine <==> named.Some? && (m.threads[named.value].phase == Blocked || m.threads[named.value].phase == Waiting))
            && (r.0 != Fine ==> r.1 == m)
  {
    hide ThreadOf;
  }

  /** After a yield the current thread is ready, stays current, and no flow is in progress. */
  lemma YieldReadies(m: Machine, t: nat)
    requires m.current == At(t) && t < MAX_THREADS
    ensures var n := Yield(m);
            && n.threads[t] == m.threads[t].(phase := Ready) && OnlyThread(m.threads, n.threads, t)
            && n == m.(threads := n.threads, flow := None)
            && (m.threads[t].id == t ==> Eligible(n.threads, t))
  {
  }

  // ---------------------------------------------------------------- the switch

  /** What a switch does to a thread, and to the two domains: the old one is suspended and draining,
      so that no further switch from or to it goes through; the new one is primary. */
  lemma SwitchDone(m: Machine, from: DomainId, to: DomainId, i: nat)
    requires i < MAX_THREADS && from != to && Switch(m, from, to).0 == Fine
    ensures var n := Switch(m, from, to).1; var t, u := m.threads[i], n.threads[i];
            && (t.id == i && t.domain == from && (t.phase == Ready || t.phase == Running) ==> u == t.(phase := Blocked))
            && (t.id == i && t.domain == to && (t.phase == Blocked || t.phase == Waiting) ==>
                  u == t.(phase := Ready, slice := 100))
            && from < MAX_DOMAINS && to < MAX_DOMAINS
            && n.rows[from] == m.rows[from].(draining := true, oldInstance := true, phase := Suspended)
            && n.rows[to] == m.rows[to].(newInstance := false, primary := true)
            && (forall d :: 0 <= d < MAX_DOMAINS && d != from && d != to ==> n.rows[d] == m.rows[d])
            && Switch(n, from, to).0 == BadState && Switch(n, to, from).0 == BadState
            && n == m.(threads := n.threads, rows := n.rows)
  {
  }

  // ---------------------------------------------------------------- the scheduler

  /** The scheduler makes an eligible thread current, and the idle thread only when there is none.
      The one before it is ready if it was running.  The new one is running, unless it was current
      already: a thread that has yielded and is taken again keeps the mark of a ready one. */
  lemma ScheduleTakes(m: Machine)
    ensures var n := Schedule(m); var some := exists t :: 0 <= t < MAX_THREADS && Eligible(m.threads, t);
            && (if some then n.current.At? && n.current.t < MAX_THREADS && Eligible(m.threads, n.current.t)
                else n.current == IdleThread)
            && (some ==> n.last == n.current.t && n.idle == m.idle
                         && n.threads[n.current.t].phase == if m.current == n.current then Ready else Running)
            && (!some ==> n.last == m.last && n.idle == if m.current == IdleThread then m.idle else Running)
            && (forall i :: 0 <= i < MAX_THREADS && n.current != At(i) ==>
                  n.threads[i] == if m.current == At(i) && m.threads[i].phase == Running
                                  then m.threads[i].(phase := Ready) else m.threads[i])
            && n.caps == m.caps && n.taken == m.taken && n.flow == m.flow && n.rows == m.rows
  {
    hide Pick;
    PickSomeIff(m.threads, m.last);
  }

  /** A thread that returns has ended, and another one is current. */
  lemma ExitEnds(m: Machine, t: nat)
    requires m.current == At(t) && t < MAX_THREADS
    ensures var n := Exit(m); n.threads[t].phase == Terminated && n.current != At(t) && n.current != Nobody
  {
    hide Schedule;
    var ended := m.(threads := SetPhase(m.threads, t, Terminated));
    ScheduleTakes(ended);
    assert !Eligible(ended.threads, t);
  }

  // ---------------------------------------------------------------- derived flows

  /** A capability derived from a flow is a flow of the same thread exactly when the thread right was
      asked for. */
  lemma DerivedFlowIff(s: State, op: Operations.Op)
    requires Operations.Legal(s, op) && Lineage.Tidy(s.g) && Lineage.Derived(op) && Lineage.Accepted(s, op)
    requires ThreadOf(s.g, Lineage.SourceOf(op)).Some?
    ensures var e := Operations.Step(s, op);
            ThreadOf(e.s.g, e.cap)
            == if Subset(CAP_TYPE_THREAD, Access.Asked(op)) then ThreadOf(s.g, Lineage.SourceOf(op)) else None
  {
    Access.HandedOut(s, op);
    hide Operations.Step, Operations.Legal, Lineage.Accepted, Access.Asked, Access.Recipient, Lineage.Tidy;
    OneBit(Access.Asked(op));
    hide HasThreadRight, Subset;
  }

  lemma OneBit(rights: Rights)
    ensures HasThreadRight(rights) <==> Subset(CAP_TYPE_THREAD, rights)
  {
  }
}
