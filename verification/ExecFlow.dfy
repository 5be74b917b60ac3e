/** Threads under execution-flow capabilities, domain switches and the boot scheduler. */
module ExecFlow {
  import opened Capability
  import Operations
  import Bits

  const MAX_THREADS := 256

  datatype Phase = Ready | Running | Blocked | Waiting | Terminated

  /** A thread control block; a block is in use when `id` is its own index. */
  datatype Tcb = Tcb(id: nat, domain: DomainId, phase: Phase, slice: nat)

  /** `g_current_thread` */
  datatype Current = Nobody | IdleThread | At(t: nat)

  datatype DomainPhase = Initial | Prepared | Active | Suspended | Ended

  datatype Row = Row(phase: DomainPhase, draining: bool, oldInstance: bool, newInstance: bool, primary: bool)

  /** `taken` is the bitmap of thread blocks, `flow` is `g_current_efc`, `last` the block scheduled last. */
  datatype MachineData = MachineData(caps: State, threads: seq<Tcb>, taken: set<nat>, current: Current, idle: Phase,
                                     flow: Option<CapId>, rows: seq<Row>, last: nat)

  type Machine = m: MachineData | |m.threads| == MAX_THREADS && |m.rows| == MAX_DOMAINS && m.last < MAX_THREADS
    witness Boot(Init(seq(HIC_DOMAIN_MAX, i => Key(0, 0))))

  datatype Reply = Fine | BadParam | BadCap | BadState | Failed(why: Status)

  /** The zeroed tables of `thread_system_init`. */
  function Boot(caps: State): (m: MachineData)
    ensures |m.threads| == MAX_THREADS && |m.rows| == MAX_DOMAINS && m.last < MAX_THREADS
  {
    MachineData(caps, seq(MAX_THREADS, i => Tcb(0, 0, Ready, 0)), {}, Nobody, Ready, None,
                seq(MAX_DOMAINS, i => Row(Initial, false, false, false, false)), 0)
  }

  // ---------------------------------------------------------------- execution flows

  predicate HasThreadRight(rights: Rights) {
    rights & CAP_TYPE_THREAD != 0
  }

  /** `efc_is_valid` */
  predicate ValidFlow(g: Graph, efc: CapId) {
    && efc < CAP_TABLE_SIZE && g.table[efc].id == efc && !g.table[efc].revoked
    && HasThreadRight(g.table[efc].rights) && g.table[efc].res.Thread?
  }

  /** The thread a valid flow names, if there is one. */
  function ThreadOf(g: Graph, efc: CapId): (t: Option<nat>)
    ensures t.Some? ==> t.value < MAX_THREADS
  {
    if ValidFlow(g, efc) && g.table[efc].res.thread < MAX_THREADS then Some(g.table[efc].res.thread) else None
  }

  function SetPhase(ts: seq<Tcb>, t: nat, p: Phase): (r: seq<Tcb>)
    requires t < |ts|
    ensures |r| == |ts|
  {
    ts[t := ts[t].(phase := p)]
  }

  /** A running thread that loses the processor is ready again. */
  function Demote(m: Machine): Machine {
    match m.current
    case Nobody => m
    case IdleThread => if m.idle == Running then m.(idle := Ready) else m
    case At(t) =>
      if t < MAX_THREADS && m.threads[t].phase == Running then m.(threads := SetPhase(m.threads, t, Ready)) else m
  }

  /** `exec_flow_dispatch`, up to the context switch. */
  function Dispatch(m: Machine, efc: CapId): (Reply, Machine) {
    match ThreadOf(m.caps.g, efc)
    case None => (BadCap, m)
    case Some(t) =>
      if m.threads[t].phase == Terminated then (BadState, m)
      else
        var d := Demote(m);
        (Fine, d.(threads := SetPhase(d.threads, t, Running), current := At(t), flow := Some(efc)))
  }

  /** `exec_flow_block` */
  function Block(m: Machine, efc: CapId): (Reply, Machine) {
    match ThreadOf(m.caps.g, efc)
    case None => (BadCap, m)
    case Some(t) => (Fine, m.(threads := SetPhase(m.threads, t, Blocked), flow := None))
  }

  /** `exec_flow_wake` */
  function Wake(m: Machine, efc: CapId): (Reply, Machine) {
    match ThreadOf(m.caps.g, efc)
    case None => (BadCap, m)
    case Some(t) =>
      if m.threads[t].phase != Blocked && m.threads[t].phase != Waiting then (BadState, m)
      else (Fine, m.(threads := SetPhase(m.threads, t, Ready)))
  }

  /** `exec_flow_yield` */
  function Yield(m: Machine): Machine {
    if m.current.At? && m.current.t < MAX_THREADS
    then m.(threads := SetPhase(m.threads, m.current.t, Ready), flow := None)
    else m.(flow := None)
  }

  /** `thread_terminate` on a block in range; its stack frames are not modelled. */
  function Terminate(m: Machine, t: nat): Machine
    requires t < MAX_THREADS
  {
    m.(threads := SetPhase(m.threads, t, Terminated), current := if m.current == At(t) then Nobody else m.current)
  }

  /** `exec_flow_create`; `granted` is the block `thread_create` found, if it succeeded. */
  function Spawn(m: Machine, domain: DomainId, granted: Option<nat>): (Reply, Machine)
    requires granted.Some? ==> granted.value < MAX_THREADS
  {
    if domain >= HIC_DOMAIN_MAX then (BadParam, m)
    else
      match granted
      case None => (Failed(NoResource), m)
      case Some(t) =>
        var n := m.(threads := m.threads[t := Tcb(t, domain, Ready, 100)], taken := m.taken + {t});
        var e := Operations.OnGraph(m.caps, Capability.Create(m.caps.g, domain, CAP_TYPE_THREAD, Thread(t), NoResource));
        if e.status == Success then (Fine, n.(caps := e.s)) else (Failed(e.status), Terminate(n, t))
  }

  /** `exec_flow_destroy` */
  function Destroy(m: Machine, efc: CapId): (Reply, Machine) {
    if !ValidFlow(m.caps.g, efc) then (BadCap, m)
    else
      var n := if ThreadOf(m.caps.g, efc).Some? then Terminate(m, ThreadOf(m.caps.g, efc).value) else m;
      (Fine, n.(caps := Operations.Revoke(n.caps, efc).s))
  }

  // ---------------------------------------------------------------- domain switch

  /** What a switch does to the block at index `i`. */
  function Switched(t: Tcb, i: nat, from: DomainId, to: DomainId): Tcb {
    if t.id != i then t
    else
      var u := if t.domain == from && (t.phase == Ready || t.phase == Running) then t.(phase := Blocked) else t;
      if u.domain == to && (u.phase == Blocked || u.phase == Waiting) then u.(phase := Ready, slice := 100) else u
  }

  predicate Switchable(r: Row) {
    r.phase == Active || r.phase == Prepared
  }

  /** `domain_atomic_switch` */
  function Switch(m: Machine, from: DomainId, to: DomainId): (Reply, Machine) {
    if from >= MAX_DOMAINS || to >= MAX_DOMAINS then (BadParam, m)
    else if !Switchable(m.rows[from]) || !Switchable(m.rows[to]) then (BadState, m)
    else
      var rows := m.rows[from := m.rows[from].(draining := true, oldInstance := true, phase := Suspended)];
      (Fine, m.(threads := seq(MAX_THREADS, i requires 0 <= i < MAX_THREADS => Switched(m.threads[i], i, from, to)),
                rows := rows[to := rows[to].(newInstance := false, primary := true)]))
  }

  // ---------------------------------------------------------------- boot scheduler

  predicate Eligible(ts: seq<Tcb>, i: nat)
    requires i < |ts|
  {
    ts[i].id == i && ts[i].phase == Ready
  }

  /** `boot_pick_next`, from distance `k` after `last` on; nothing stands for the idle thread. */
  function Pick(ts: seq<Tcb>, last: nat, k: nat): (r: Option<nat>)
    requires |ts| == MAX_THREADS
    ensures r.Some? ==> r.value < MAX_THREADS && Eligible(ts, r.value)
    decreases MAX_THREADS + 1 - k
  {
    if k > MAX_THREADS then None
    else
      var i := (last + k) % MAX_THREADS;
      if Eligible(ts, i) then Some(i) else Pick(ts, last, k + 1)
  }

  /** `schedule`, up to the context switch. */
  function Schedule(m: Machine): Machine {
    var pick := Pick(m.threads, m.last, 1);
    var next := if pick.Some? then At(pick.value) else IdleThread;
    var p := m.(last := if pick.Some? then pick.value else m.last);
    if next == m.current then p
    else
      var d := if m.current.At? then Demote(p) else p;
      if pick.Some? then d.(threads := SetPhase(d.threads, pick.value, Running), current := next)
      else d.(idle := Running, current := next)
  }

  /** `thread_exit_handler` */
  function Exit(m: Machine): Machine {
    if m.current.At? && m.current.t < MAX_THREADS
    then Schedule(m.(threads := SetPhase(m.threads, m.current.t, Terminated)))
    else Schedule(m)
  }

  // ---------------------------------------------------------------- runs

  datatype Op =
    | OpCreate(domain: DomainId, granted: Option<nat>)
    | OpDestroy(efc: CapId)
    | OpDispatch(efc: CapId)
    | OpBlock(efc: CapId)
    | OpWake(efc: CapId)
    | OpYield
    | OpSwitch(from: DomainId, to: DomainId)
    | OpSchedule
    | OpExit
    | OpCaps(op: Operations.Op)

  /** `thread_create` hands out a block whose bit was clear; bits are never cleared again. */
  predicate Legal(m: Machine, op: Op) {
    match op
    case OpCreate(_, granted) => granted.Some? ==> granted.value < MAX_THREADS && granted.value !in m.taken
    case OpCaps(o) => Operations.Legal(m.caps, o)
    case _ => true
  }

  function Step(m: Machine, op: Op): Machine
    requires Legal(m, op)
  {
    match op
    case OpCreate(domain, granted) => Spawn(m, domain, granted).1
    case OpDestroy(efc) => Destroy(m, efc).1
    case OpDispatch(efc) => Dispatch(m, efc).1
    case OpBlock(efc) => Block(m, efc).1
    case OpWake(efc) => Wake(m, efc).1
    case OpYield => Yield(m)
    case OpSwitch(from, to) => Switch(m, from, to).1
    case OpSchedule => Schedule(m)
    case OpExit => Exit(m)
    case OpCaps(o) => m.(caps := Operations.Step(m.caps, o).s)
  }

  /** A running thread is the current one, so there is at most one. */
  ghost predicate OneRunning(m: Machine) {
    forall i :: 0 <= i < MAX_THREADS && m.threads[i].phase == Running ==> m.current == At(i)
  }

  /** The current thread is a block that has not ended. */
  ghost predicate CurrentAlive(m: Machine) {
    m.current.At? ==> m.current.t < MAX_THREADS && m.threads[m.current.t].phase != Terminated
  }

  ghost predicate Inv(m: Machine) {
    OneRunning(m) && CurrentAlive(m)
  }

  lemma FlowInv(m: Machine, efc: CapId)
    requires Inv(m)
    ensures Inv(Dispatch(m, efc).1) && Inv(Block(m, efc).1) && Inv(Wake(m, efc).1) && Inv(Yield(m))
  {
    hide ThreadOf;
  }

  lemma CreateInv(m: Machine, domain: DomainId, granted: Option<nat>)
    requires Inv(m) && (granted.Some? ==> granted.value < MAX_THREADS)
    ensures Inv(Spawn(m, domain, granted).1)
  {
    hide Capability.Create, Operations.OnGraph;
  }

  lemma DestroyInv(m: Machine, efc: CapId)
    requires Inv(m)
    ensures Inv(Destroy(m, efc).1)
  {
    hide ThreadOf, ValidFlow, Operations.Revoke;
  }

  lemma SwitchInv(m: Machine, from: DomainId, to: DomainId)
    requires Inv(m)
    ensures Inv(Switch(m, from, to).1)
  {
  }

  /** Also when the current thread has just ended. */
  lemma ScheduleInv(m: Machine)
    requires OneRunning(m) && (m.current.At? ==> m.current.t < MAX_THREADS)
    ensures Inv(Schedule(m))
  {
    hide Pick;
  }

  lemma StepInv(m: Machine, op: Op)
    requires Inv(m) && Legal(m, op)
    ensures Inv(Step(m, op))
  {
    match op
    case OpCreate(domain, granted) => CreateInv(m, domain, granted);
    case OpDestroy(efc) => DestroyInv(m, efc);
    case OpDispatch(efc) => FlowInv(m, efc);
    case OpBlock(efc) => FlowInv(m, efc);
    case OpWake(efc) => FlowInv(m, efc);
    case OpYield => FlowInv(m, 0);
    case OpSwitch(from, to) => SwitchInv(m, from, to);
    case OpSchedule => ScheduleInv(m);
    case OpExit =>
      hide Schedule;
      ScheduleInv(if m.current.At? then m.(threads := SetPhase(m.threads, m.current.t, Terminated)) else m);
    case OpCaps(o) => hide Operations.Step;
  }

  ghost predicate LegalRun(m: Machine, ops: seq<Op>)
    decreases |ops|
  {
    ops == [] || (Legal(m, ops[0]) && LegalRun(Step(m, ops[0]), ops[1..]))
  }

  ghost function Run(m: Machine, ops: seq<Op>): Machine
    requires LegalRun(m, ops)
    decreases |ops|
  {
    if ops == [] then m else Run(Step(m, ops[0]), ops[1..])
  }

  lemma {:induction false} RunInv(m: Machine, ops: seq<Op>)
    requires Inv(m) && LegalRun(m, ops)
    ensures Inv(Run(m, ops))
    decreases |ops|
  {
    hide Inv, Legal, Step;
    if ops != [] {
      StepInv(m, ops[0]);
      RunInv(Step(m, ops[0]), ops[1..]);
    }
  }

  /** Over every run of flow operations, domain switches, scheduling and capability operations, at
      most one thread of the table is running, and it is the current one. */
  lemma AtMostOneRunning(caps: State, ops: seq<Op>, i: nat, j: nat)
    requires LegalRun(Boot(caps), ops) && i < MAX_THREADS && j < MAX_THREADS
    ensures var m := Run(Boot(caps), ops);
            && (m.threads[i].phase == Running ==> m.current == At(i))
            && (m.threads[i].phase == Running && m.threads[j].phase == Running ==> i == j)
  {
    hide Run, LegalRun;
    RunInv(Boot(caps), ops);
  }

  // ---------------------------------------------------------------- the idle thread

  /** The idle thread, when running, is the current one. */
  predicate IdleApart(m: Machine) {
    m.idle == Running ==> m.current == IdleThread
  }

  /** The scheduler takes the processor from the idle thread, which it does not demote. */
  predicate LeavesIdle(m: Machine, op: Op) {
    && Schedules(op) && m.current == IdleThread && m.idle == Running
    && exists t :: 0 <= t < MAX_THREADS && Eligible(m.threads, t)
  }

  /** The scan finds a thread exactly when one is eligible. */
  lemma PickSomeIff(ts: seq<Tcb>, last: nat)
    requires |ts| == MAX_THREADS && last < MAX_THREADS
    ensures Pick(ts, last, 1).Some? <==> exists t :: 0 <= t < MAX_THREADS && Eligible(ts, t)
  {
    hide Eligible;
    if t :| 0 <= t < MAX_THREADS && Eligible(ts, t) { PickCloser(ts, last, t); }
  }

  /** A step keeps a running idle thread the current one if and only if it is not of that kind. */
  lemma IdleApartIff(m: Machine, op: Op)
    requires IdleApart(m) && Legal(m, op)
    ensures IdleApart(Step(m, op)) <==> !LeavesIdle(m, op)
  {
    hide ThreadOf, ValidFlow, Operations.Revoke, Operations.Step, Operations.OnGraph, Capability.Create, Pick, Eligible;
    PickSomeIff(m.threads, m.last);
  }

  ghost predicate NeverLeavesIdle(m: Machine, ops: seq<Op>)
    requires LegalRun(m, ops)
    decreases |ops|
  {
    ops == [] || (!LeavesIdle(m, ops[0]) && NeverLeavesIdle(Step(m, ops[0]), ops[1..]))
  }

  /** At every moment of the run a running thread, the idle one included, is the current one. */
  ghost predicate AlwaysOne(m: Machine, ops: seq<Op>)
    requires LegalRun(m, ops)
    decreases |ops|
  {
    && (forall c: Current :: Runs(m, c) ==> m.current == c)
    && (ops != [] ==> AlwaysOne(Step(m, ops[0]), ops[1..]))
  }

  predicate Runs(m: Machine, c: Current) {
    match c
    case Nobody => false
    case IdleThread => m.idle == Running
    case At(t) => t < MAX_THREADS && m.threads[t].phase == Running
  }

  lemma OneIff(m: Machine)
    requires Inv(m)
    ensures IdleApart(m) <==> forall c: Current :: Runs(m, c) ==> m.current == c
  {
    assert Runs(m, IdleThread) <==> m.idle == Running;
  }

  lemma {:induction false} AlwaysOneIff(m: Machine, ops: seq<Op>)
    requires Inv(m) && IdleApart(m) && LegalRun(m, ops)
    ensures AlwaysOne(m, ops) <==> NeverLeavesIdle(m, ops)
    decreases |ops|
  {
    hide Inv, IdleApart, LeavesIdle, Legal, Step, Runs;
    OneIff(m);
    if ops != [] {
      var n := Step(m, ops[0]);
      StepInv(m, ops[0]);
      IdleApartIff(m, ops[0]);
      OneIff(n);
      if IdleApart(n) { AlwaysOneIff(n, ops[1..]); } else { NotAlwaysOne(n, ops[1..]); }
    }
  }

  lemma NotAlwaysOne(m: Machine, ops: seq<Op>)
    requires LegalRun(m, ops) && !forall c: Current :: Runs(m, c) ==> m.current == c
    ensures !AlwaysOne(m, ops)
  {
  }

  /** With the idle thread: from the start a running thread is the current one, at every moment of a
      run, if and only if the scheduler never takes the processor from the idle thread. */
  lemma OneRunningIff(caps: State, ops: seq<Op>)
    requires LegalRun(Boot(caps), ops)
    ensures AlwaysOne(Boot(caps), ops) <==> NeverLeavesIdle(Boot(caps), ops)
  {
    hide LegalRun, AlwaysOne, NeverLeavesIdle;
    AlwaysOneIff(Boot(caps), ops);
  }

  /** A run of flow operations, domain switches and capability operations alone is of that kind. */
  lemma {:induction false} UnscheduledKeepsIdle(m: Machine, ops: seq<Op>)
    requires LegalRun(m, ops) && forall k :: 0 <= k < |ops| ==> !Schedules(ops[k])
    ensures NeverLeavesIdle(m, ops)
    decreases |ops|
  {
    hide Legal, Step, Schedules;
    if ops != [] { UnscheduledKeepsIdle(Step(m, ops[0]), ops[1..]); }
  }

  /** It does happen: with nothing else to run the scheduler takes the idle thread, and leaves it
      running beside the first thread that comes up.  The zeroed block 0 passes for a ready thread, so
      that one runs and ends first. */
  lemma IdleLeftRunning(keys: seq<Key>)
    requires |keys| == HIC_DOMAIN_MAX
    ensures var m0: Machine := Boot(Init(keys));
            var m2 := Step(Step(m0, OpSchedule), OpExit);
            var m4 := Step(Step(m2, OpCreate(1, Some(5))), OpSchedule);
            m4.idle == Running && m4.threads[5].phase == Running && m4.current == At(5)
  {
    hide Pick;
    var m0: Machine := Boot(Init(keys));
    OnlyEligible(m0.threads, 0, 0);
    var m1 := Step(m0, OpSchedule);
    assert m1.current == At(0) && m1.threads[0].phase == Running;
    PickSomeIff(Scanned(m1, OpExit), 0);
    var m2 := Step(m1, OpExit);
    assert m2.current == IdleThread && m2.idle == Running && m2.threads[0].phase == Terminated;
    var m3 := Step(m2, OpCreate(1, Some(5)));
    OnlyEligible(m3.threads, m3.last, 5);
  }

  lemma OnlyEligible(ts: seq<Tcb>, last: nat, t: nat)
    requires |ts| == MAX_THREADS && last < MAX_THREADS && t < MAX_THREADS && Eligible(ts, t)
    requires forall i :: 0 <= i < MAX_THREADS && i != t ==> !Eligible(ts, i)
    ensures Pick(ts, last, 1) == Some(t)
  {
    hide Pick;
    PickSomeIff(ts, last);
  }

  // ---------------------------------------------------------------- the switch

  /** After a switch between two domains nothing of the old one is ready or running, nothing of the
      new one blocked or waiting, and nothing else about any thread changed but the time slices of
      the threads woken; a switch refused changes nothing. */
  lemma SwitchEffect(m: Machine, from: DomainId, to: DomainId, i: nat)
    requires i < MAX_THREADS && from != to
    ensures var r := Switch(m, from, to); var t, u := m.threads[i], r.1.threads[i];
            && (r.0 != Fine ==> r.1 == m)
            && u.id == t.id && u.domain == t.domain
            && (r.0 == Fine && t.id == i && t.domain == from ==>
                  u.phase != Ready && u.phase != Running && (t.phase != Ready && t.phase != Running ==> u == t))
            && (r.0 == Fine && t.id == i && t.domain == to ==>
                  u.phase != Blocked && u.phase != Waiting && (t.phase != Blocked && t.phase != Waiting ==> u == t))
            && (t.id != i || (t.domain != from && t.domain != to) ==> u == t)
  {
  }

  /** Switching a domain to itself suspends it with every thread that has not ended ready. */
  lemma SwitchToSelf(m: Machine, d: DomainId, i: nat)
    requires i < MAX_THREADS && d < MAX_DOMAINS && Switchable(m.rows[d]) && m.threads[i].id == i && m.threads[i].domain == d
    ensures var r := Switch(m, d, d);
            && r.0 == Fine && r.1.rows[d].phase == Suspended
            && r.1.threads[i].phase == if m.threads[i].phase == Terminated then Terminated else Ready
  {
  }

  // ---------------------------------------------------------------- ended threads

  /** A slot of the capability table is free. */
  predicate FreeId(g: Graph) {
    exists c :: 1 <= c < CAP_TABLE_SIZE && g.table[c].id == 0
  }

  lemma SpawnFineIff(m: Machine, domain: DomainId, granted: Option<nat>)
    requires granted.Some? ==> granted.value < MAX_THREADS
    ensures Spawn(m, domain, granted).0 == Fine <==> domain < HIC_DOMAIN_MAX && granted.Some? && FreeId(m.caps.g)
  {
  }

  /** An ended thread stays ended in every step but two: making a new thread of its block, and
      blocking it through a capability that still names it, which brings it back. */
  lemma EndedStaysIff(m: Machine, op: Op, t: nat)
    requires Inv(m) && Legal(m, op) && t < MAX_THREADS && m.threads[t].phase == Terminated
    ensures Step(m, op).threads[t].phase == Terminated
            <==> && !(op.OpBlock? && ThreadOf(m.caps.g, op.efc) == Some(t))
                 && !(op.OpCreate? && op.granted == Some(t) && op.domain < HIC_DOMAIN_MAX && FreeId(m.caps.g))
  {
    if Schedules(op) {
      hide Schedule;
      ScheduleEnded(m.(threads := Scanned(m, op)), t);
    } else {
      hide ThreadOf, ValidFlow, Operations.Revoke, Operations.Step, Operations.OnGraph, Capability.Create, Schedule, FreeId;
      if op.OpCreate? { SpawnFineIff(m, op.domain, op.granted); }
    }
  }

  /** Such a return is reached from the start: a thread that has run to its end is blocked and woken
      through its flow, and is ready to be dispatched again. */
  lemma EndedComesBack(keys: seq<Key>)
    requires |keys| == HIC_DOMAIN_MAX
    ensures var m0: Machine := Boot(Init(keys));
            var m3 := Step(Step(Step(m0, OpCreate(1, Some(5))), OpDispatch(1)), OpExit);
            var m5 := Step(Step(m3, OpBlock(1)), OpWake(1));
            m3.threads[5].phase == Terminated && m5.threads[5].phase == Ready && m5.threads[5].id == 5
  {
    var m0: Machine := Boot(Init(keys));
    var m1 := Step(m0, OpCreate(1, Some(5)));
    assert m1.caps.g.table[1] == Entry(1, CAP_TYPE_THREAD, 1, false, Thread(5));
    assert HasThreadRight(CAP_TYPE_THREAD);
    var m2 := Step(m1, OpDispatch(1));
    assert m2.threads[5].phase == Running && m2.current == At(5);
    ScheduleEnded(m2.(threads := SetPhase(m2.threads, 5, Terminated)), 5);
    var m3 := Step(m2, OpExit);
    assert m3.caps == m1.caps && m3.threads[5].phase == Terminated;
  }

  lemma ScheduleEnded(m: Machine, t: nat)
    requires OneRunning(m) && t < MAX_THREADS && m.threads[t].phase == Terminated
    ensures Schedule(m).threads[t].phase == Terminated
  {
    hide Pick;
  }

  // ---------------------------------------------------------------- fairness of the boot scheduler

  /** How many blocks the scan passes between `last` and `t`. */
  function Distance(last: nat, t: nat): (d: nat)
    ensures d < MAX_THREADS
  {
    (t - last - 1) % MAX_THREADS
  }

  lemma DistanceIs(last: nat, t: nat)
    requires last < MAX_THREADS && t < MAX_THREADS
    ensures Distance(last, t) == if t > last then t - last - 1 else t - last - 1 + MAX_THREADS
  {
  }

  lemma DistanceBack(last: nat, t: nat)
    requires last < MAX_THREADS && t < MAX_THREADS
    ensures (last + (Distance(last, t) + 1)) % MAX_THREADS == t
  {
    DistanceIs(last, t);
    hide Distance;
    RoundIs(last, Distance(last, t) + 1);
  }

  lemma RoundIs(last: nat, k: nat)
    requires last < MAX_THREADS && 1 <= k <= MAX_THREADS
    ensures (last + k) % MAX_THREADS == if last + k < MAX_THREADS then last + k else last + k - MAX_THREADS
    ensures Distance(last, (last + k) % MAX_THREADS) == k - 1
  {
    var i := if last + k < MAX_THREADS then last + k else last + k - MAX_THREADS;
    assert (last + k) % MAX_THREADS == i;
    DistanceIs(last, i);
    hide Distance;
  }

  lemma {:induction false} PickFirst(ts: seq<Tcb>, last: nat, k: nat, t: nat)
    requires |ts| == MAX_THREADS && last < MAX_THREADS && t < MAX_THREADS && Eligible(ts, t)
    requires 1 <= k <= Distance(last, t) + 1
    ensures Pick(ts, last, k).Some? && k - 1 <= Distance(last, Pick(ts, last, k).value) <= Distance(last, t)
    decreases MAX_THREADS - k
  {
    hide Distance, Eligible;
    DistanceBack(last, t);
    RoundIs(last, k);
    if !Eligible(ts, (last + k) % MAX_THREADS) { PickFirst(ts, last, k + 1, t); }
  }

  /** Each scan takes an eligible thread or comes closer to it. */
  lemma PickCloser(ts: seq<Tcb>, last: nat, t: nat)
    requires |ts| == MAX_THREADS && last < MAX_THREADS && t < MAX_THREADS && Eligible(ts, t)
    ensures Pick(ts, last, 1).Some?
    ensures var p := Pick(ts, last, 1).value; p == t || Distance(p, t) < Distance(last, t)
  {
    hide Distance, Pick;
    PickFirst(ts, last, 1, t);
    var p := Pick(ts, last, 1).value;
    DistanceIs(last, p);
    DistanceIs(last, t);
    DistanceIs(p, t);
  }

  predicate Schedules(op: Op) {
    op.OpSchedule? || op.OpExit?
  }

  function Scans(ops: seq<Op>): nat {
    if ops == [] then 0 else (if Schedules(ops[0]) then 1 else 0) + Scans(ops[1..])
  }

  /** The threads as `schedule` finds them. */
  function Scanned(m: Machine, op: Op): (ts: seq<Tcb>)
    ensures |ts| == MAX_THREADS
  {
    if op.OpExit? && m.current.At? && m.current.t < MAX_THREADS
    then SetPhase(m.threads, m.current.t, Terminated)
    else m.threads
  }

  /** Thread `t` is eligible whenever the scheduler runs, and another is taken each time. */
  ghost predicate PassedOver(m: Machine, ops: seq<Op>, t: nat)
    requires LegalRun(m, ops) && t < MAX_THREADS
    decreases |ops|
  {
    ops != [] ==>
      && (Schedules(ops[0]) ==> Eligible(Scanned(m, ops[0]), t) && Pick(Scanned(m, ops[0]), m.last, 1) != Some(t))
      && PassedOver(Step(m, ops[0]), ops[1..], t)
  }

  lemma StepLast(m: Machine, op: Op)
    requires Legal(m, op)
    ensures Step(m, op).last == if Schedules(op) && Pick(Scanned(m, op), m.last, 1).Some?
                                then Pick(Scanned(m, op), m.last, 1).value else m.last
  {
    hide ThreadOf, ValidFlow, Operations.Revoke, Operations.Step, Operations.OnGraph, Capability.Create, Pick;
  }

  /** Whatever else happens, a ready thread is passed over at most as often as it is away from the
      thread scheduled last, so at most 255 times. */
  lemma {:induction false} BoundedWait(m: Machine, ops: seq<Op>, t: nat)
    requires LegalRun(m, ops) && t < MAX_THREADS && PassedOver(m, ops, t)
    ensures Scans(ops) <= Distance(m.last, t) <= MAX_THREADS - 1
    decreases |ops|
  {
    hide Step, Legal, Pick, Eligible, Distance;
    if ops != [] {
      StepLast(m, ops[0]);
      BoundedWait(Step(m, ops[0]), ops[1..], t);
      if Schedules(ops[0]) { PickCloser(Scanned(m, ops[0]), m.last, t); }
    }
  }

  // ---------------------------------------------------------------- in place

  class Kernel {
    const threads: array<Tcb>
    const rows: array<Row>
    var caps: State
    var taken: set<nat>
    var current: Current
    var idle: Phase
    var flow: Option<CapId>
    var last: nat

    ghost predicate Valid()
      reads this
    {
      threads.Length == MAX_THREADS && rows.Length == MAX_DOMAINS && last < MAX_THREADS
    }

    ghost function Abs(): Machine
      requires Valid()
      reads this, threads, rows
    {
      MachineData(caps, threads[..], taken, current, idle, flow, rows[..], last)
    }

    constructor (capabilities: State)
      ensures Valid() && fresh(threads) && fresh(rows) && Abs() == Boot(capabilities)
    {
      threads := new Tcb[MAX_THREADS](i => Tcb(0, 0, Ready, 0));
      rows := new Row[MAX_DOMAINS](i => Row(Initial, false, false, false, false));
      caps, taken, current, idle, flow, last := capabilities, {}, Nobody, Ready, None, 0;
    }

    method DispatchFlow(efc: CapId) returns (reply: Reply)
      requires Valid()
      modifies this, threads
      ensures Valid() && (reply, Abs()) == Dispatch(old(Abs()), efc)
    {
      hide ThreadOf;
      var named := ThreadOf(caps.g, efc);
      if named.None? { return BadCap; }
      var t := named.value;
      if threads[t].phase == Terminated { return BadState; }
      match current {
        case Nobody =>
        case IdleThread => if idle == Running { idle := Ready; }
        case At(p) => if p < MAX_THREADS && threads[p].phase == Running { threads[p] := threads[p].(phase := Ready); }
      }
      threads[t] := threads[t].(phase := Running);
      current, flow := At(t), Some(efc);
      return Fine;
    }

    method BlockFlow(efc: CapId) returns (reply: Reply)
      requires Valid()
      modifies this, threads
      ensures Valid() && (reply, Abs()) == Block(old(Abs()), efc)
    {
      hide ThreadOf;
      var named := ThreadOf(caps.g, efc);
      if named.None? { return BadCap; }
      threads[named.value] := threads[named.value].(phase := Blocked);
      flow := None;
      return Fine;
    }

    method WakeFlow(efc: CapId) returns (reply: Reply)
      requires Valid()
      modifies this, threads
      ensures Valid() && (reply, Abs()) == Wake(old(Abs()), efc)
    {
      hide ThreadOf;
      var named := ThreadOf(caps.g, efc);
      if named.None? { return BadCap; }
      var t := named.value;
      if threads[t].phase != Blocked && threads[t].phase != Waiting { return BadState; }
      threads[t] := threads[t].(phase := Ready);
      return Fine;
    }

    method YieldFlow()
      requires Valid()
      modifies this, threads
      ensures Valid() && Abs() == Yield(old(Abs()))
    {
      if current.At? && current.t < MAX_THREADS { threads[current.t] := threads[current.t].(phase := Ready); }
      flow := None;
    }

    method TerminateThread(t: nat)
      requires Valid() && t < MAX_THREADS
      modifies this, threads
      ensures Valid() && Abs() == Terminate(old(Abs()), t)
    {
      threads[t] := threads[t].(phase := Terminated);
      if current == At(t) { current := Nobody; }
    }

    method CreateFlow(domain: DomainId, granted: Option<nat>) returns (reply: Reply)
      requires Valid() && (granted.Some? ==> granted.value < MAX_THREADS)
      modifies this, threads
      ensures Valid() && (reply, Abs()) == Spawn(old(Abs()), domain, granted)
    {
      hide Capability.Create;
      if domain >= HIC_DOMAIN_MAX { return BadParam; }
      if granted.None? { return Failed(NoResource); }
      var t := granted.value;
      threads[t], taken := Tcb(t, domain, Ready, 100), taken + {t};
      var made := Capability.Create(caps.g, domain, CAP_TYPE_THREAD, Thread(t), NoResource);
      if made.status != Success {
        TerminateThread(t);
        return Failed(made.status);
      }
      caps := caps.(g := made.g);
      return Fine;
    }

    method DestroyFlow(efc: CapId) returns (reply: Reply)
      requires Valid()
      modifies this, threads
      ensures Valid() && (reply, Abs()) == Destroy(old(Abs()), efc)
    {
      hide ThreadOf, ValidFlow, Operations.Revoke;
      if !ValidFlow(caps.g, efc) { return BadCap; }
      var named := ThreadOf(caps.g, efc);
      if named.Some? { TerminateThread(named.value); }
      caps := Operations.Revoke(caps, efc).s;
      return Fine;
    }

    method SwitchDomains(from: DomainId, to: DomainId) returns (reply: Reply)
      requires Valid()
      modifies this, threads, rows
      ensures Valid() && (reply, Abs()) == Switch(old(Abs()), from, to)
    {
      if from >= MAX_DOMAINS || to >= MAX_DOMAINS { return BadParam; }
      if !Switchable(rows[from]) || !Switchable(rows[to]) { return BadState; }
      rows[from] := rows[from].(draining := true, oldInstance := true, phase := Suspended);
      var i := 0;
      while i < MAX_THREADS
        invariant i <= MAX_THREADS
        invariant forall j :: 0 <= j < i ==> threads[j] == Switched(old(threads[..])[j], j, from, to)
        invariant forall j :: i <= j < MAX_THREADS ==> threads[j] == old(threads[..])[j]
        modifies threads
      {
        var t := threads[i];
        if t.id == i {
          if t.domain == from && (t.phase == Ready || t.phase == Running) { t := t.(phase := Blocked); }
          if t.domain == to && (t.phase == Blocked || t.phase == Waiting) { t := t.(phase := Ready, slice := 100); }
          threads[i] := t;
        }
        i := i + 1;
      }
      rows[to] := rows[to].(newInstance := false, primary := true);
      assert threads[..] == Switch(old(Abs()), from, to).1.threads;
      assert rows[..] == Switch(old(Abs()), from, to).1.rows;
      return Fine;
    }

    method PickNext() returns (pick: Option<nat>)
      requires Valid()
      modifies this`last
      ensures Valid() && pick == Pick(threads[..], old(last), 1)
      ensures last == if pick.Some? then pick.value else old(last)
    {
      var k := 1;
      while k <= MAX_THREADS
        invariant 1 <= k <= MAX_THREADS + 1 && last == old(last)
        invariant Pick(threads[..], last, k) == Pick(threads[..], last, 1)
      {
        var i := (last + k) % MAX_THREADS;
        if threads[i].id == i && threads[i].phase == Ready {
          last := i;
          return Some(i);
        }
        k := k + 1;
      }
      return None;
    }

    method ScheduleNext()
      requires Valid()
      modifies this, threads
      ensures Valid() && Abs() == Schedule(old(Abs()))
    {
      hide Pick;
      var pick := PickNext();
      var next := if pick.Some? then At(pick.value) else IdleThread;
      if next == current { return; }
      if current.At? && current.t < MAX_THREADS && threads[current.t].phase == Running {
        threads[current.t] := threads[current.t].(phase := Ready);
      }
      if pick.Some? {
        threads[pick.value] := threads[pick.value].(phase := Running);
      } else {
        idle := Running;
      }
      current := next;
    }

    method ExitThread()
      requires Valid()
      modifies this, threads
      ensures Valid() && Abs() == Exit(old(Abs()))
    {
      hide Schedule;
      if current.At? && current.t < MAX_THREADS { threads[current.t] := threads[current.t].(phase := Terminated); }
      ScheduleNext();
    }
  }
}
