/** The capability-verification cache of the AMP verification processor.

    A call of `amp_verify_capability` looks in the cache and otherwise checks the table and then
    stamps a new entry with the time.  Time may pass and the table may change between any two of
    these steps, in particular between the check and the stamp, and the sweep of expired entries
    runs beside the calls. */
module AmpCache {
  import opened Capability
  import Bits

  const AMP_CAP_CACHE_SIZE := 1024
  const CAP_CACHE_TTL := 1000000

  datatype Ask = Ask(domain: DomainId, cap: CapId, rights: Rights)

  datatype Cell = Cell(inUse: bool, ask: Ask, valid: bool, stamp: nat)

  /** The check on the capability table itself. */
  predicate Direct(g: Graph, a: Ask) {
    && a.cap < CAP_TABLE_SIZE
    && g.table[a.cap].id == a.cap && !g.table[a.cap].revoked
    && g.table[a.cap].owner == a.domain && Subset(a.rights, g.table[a.cap].rights)
  }

  /** The unsigned difference of two clock readings. */
  function Age(now: nat, stamp: nat): int {
    (now - stamp) % U64
  }

  /** The lookup loop from cell `i` on: an entry past its time is dropped on the way. */
  function Scan(cells: seq<Cell>, a: Ask, now: nat, i: nat): (r: (Option<bool>, seq<Cell>))
    requires i <= |cells|
    ensures |r.1| == |cells|
    decreases |cells| - i
  {
    if i == |cells| then (None, cells)
    else if cells[i].inUse && cells[i].ask == a then
      if Age(now, cells[i].stamp) < CAP_CACHE_TTL then (Some(cells[i].valid), cells)
      else Scan(cells[i := cells[i].(inUse := false)], a, now, i + 1)
    else Scan(cells, a, now, i + 1)
  }

  /** The first unused cell from `i` on, the number of cells when there is none. */
  function FirstUnused(cells: seq<Cell>, i: nat): (k: nat)
    requires i <= |cells|
    ensures i <= k <= |cells|
    ensures k < |cells| ==> !cells[k].inUse
    ensures forall j :: i <= j < k ==> cells[j].inUse
    decreases |cells| - i
  {
    if i == |cells| || !cells[i].inUse then i else FirstUnused(cells, i + 1)
  }

  function Insert(cells: seq<Cell>, cell: Cell): (r: seq<Cell>)
    ensures |r| == |cells|
  {
    var k := FirstUnused(cells, 0);
    if k == |cells| then cells else cells[k := cell]
  }

  function Cleaned(cell: Cell, now: nat): Cell {
    if cell.inUse && Age(now, cell.stamp) > CAP_CACHE_TTL then cell.(inUse := false) else cell
  }

  function CleanAll(cells: seq<Cell>, now: nat): (r: seq<Cell>)
    ensures |r| == |cells|
  {
    seq(|cells|, i requires 0 <= i < |cells| => Cleaned(cells[i], now))
  }

  // ---------------------------------------------------------------- in place

  class Processor {
    const cells: array<Cell>
    var hits: nat
    var misses: nat
    var verified: nat

    constructor ()
      ensures fresh(cells) && cells.Length == AMP_CAP_CACHE_SIZE
      ensures forall i :: 0 <= i < cells.Length ==> !cells[i].inUse
    {
      cells := new Cell[AMP_CAP_CACHE_SIZE](i => Cell(false, Ask(0, 0, 0), false, 0));
      hits, misses, verified := 0, 0, 0;
    }

    /** The lookup of `amp_verify_capability`. */
    method Find(a: Ask, now: nat) returns (found: Option<bool>)
      modifies cells
      ensures (found, cells[..]) == Scan(old(cells[..]), a, now, 0)
    {
      hide Age;
      var i := 0;
      while i < cells.Length
        invariant i <= cells.Length
        invariant Scan(cells[..], a, now, i) == Scan(old(cells[..]), a, now, 0)
      {
        var cell := cells[i];
        if cell.inUse && cell.ask == a {
          if Age(now, cell.stamp) < CAP_CACHE_TTL { return Some(cell.valid); }
          ghost var before := cells[..];
          cells[i] := cell.(inUse := false);
          assert cells[..] == before[i := cell.(inUse := false)];
        }
        i := i + 1;
      }
      return None;
    }

    /** Its last loop. */
    method Add(cell: Cell)
      modifies cells
      ensures cells[..] == Insert(old(cells[..]), cell)
    {
      var i := 0;
      while i < cells.Length
        invariant i <= cells.Length && cells[..] == old(cells[..])
        invariant FirstUnused(cells[..], i) == FirstUnused(cells[..], 0)
      {
        if !cells[i].inUse {
          cells[i] := cell;
          return;
        }
        i := i + 1;
      }
    }

    /** `amp_verify_capability`.  The table is `g` when it is checked and the clock reads `now` at the
        lookup and `later` at the stamp; without a verification processor nothing is cached. */
    method Verify(a: Ask, g: Graph, enabled: bool, now: nat, later: nat) returns (answer: bool)
      modifies this, cells
      ensures var looked := Scan(old(cells[..]), a, now, 0);
              if !enabled then answer == Direct(g, a) && cells[..] == old(cells[..])
              else if looked.0.Some? then answer == looked.0.value && cells[..] == looked.1 && hits == old(hits) + 1
              else && answer == Direct(g, a) && misses == old(misses) + 1 && verified == old(verified) + 1
                   && cells[..] == Insert(looked.1, Cell(true, a, answer, later))
    {
      hide Scan, Insert, Direct;
      if !enabled { return Direct(g, a); }
      var found := Find(a, now);
      if found.Some? {
        hits := hits + 1;
        return found.value;
      }
      misses := misses + 1;
      answer := Direct(g, a);
      verified := verified + 1;
      Add(Cell(true, a, answer, later));
    }

    /** One round of `amp_cap_verify_loop`. */
    method SweepExpired(now: nat)
      modifies cells
      ensures cells[..] == CleanAll(old(cells[..]), now)
    {
      hide Age;
      var i := 0;
      while i < cells.Length
        invariant i <= cells.Length
        invariant forall j :: 0 <= j < i ==> cells[j] == Cleaned(old(cells[..])[j], now)
        invariant forall j :: i <= j < cells.Length ==> cells[j] == old(cells[..])[j]
      {
        if cells[i].inUse && Age(now, cells[i].stamp) > CAP_CACHE_TTL {
          cells[i] := cells[i].(inUse := false);
        }
        i := i + 1;
      }
    }
  }

  // ---------------------------------------------------------------- runs

  /** The table as it was at some time. */
  datatype Moment = Moment(time: nat, g: Graph)

  /** A call that has checked the table and has not stamped its entry yet. */
  datatype Call = Call(ask: Ask, valid: bool)

  /** `seen` are all moments of the run so far, the present one last. */
  datatype World = World(now: nat, g: Graph, cells: seq<Cell>, call: Option<Call>, seen: seq<Moment>)

  /** The clock advances by one; the table changes; a call looks and, on a miss, checks; the open
      call stamps its entry; the sweep runs. */
  datatype Step = Tick | Change(g: Graph) | Begin(ask: Ask) | Finish | Clean

  function Next(w: World, s: Step): World {
    match s
    case Tick => if w.now + 1 < U64 then w.(now := w.now + 1, seen := w.seen + [Moment(w.now + 1, w.g)]) else w
    case Change(g) => w.(g := g, seen := w.seen + [Moment(w.now, g)])
    case Begin(a) =>
      if w.call.Some? then w
      else
        var looked := Scan(w.cells, a, w.now, 0);
        w.(cells := looked.1, call := if looked.0.Some? then None else Some(Call(a, Direct(w.g, a))))
    case Finish =>
      if w.call.None? then w
      else w.(cells := Insert(w.cells, Cell(true, w.call.value.ask, w.call.value.valid, w.now)), call := None)
    case Clean => w.(cells := CleanAll(w.cells, w.now))
  }

  /** At some moment of the run at this time the direct check gives this answer. */
  ghost predicate TrueAt(w: World, a: Ask, answer: bool, time: nat) {
    exists k :: 0 <= k < |w.seen| && w.seen[k].time == time && Direct(w.seen[k].g, a) == answer
  }

  /** At some moment less than the time to live ago the direct check gives this answer. */
  ghost predicate Fresh(w: World, a: Ask, answer: bool) {
    exists k :: 0 <= k < |w.seen| && Direct(w.seen[k].g, a) == answer
                && w.seen[k].time <= w.now < w.seen[k].time + CAP_CACHE_TTL
  }

  /** What the cache would answer now is fresh. */
  ghost predicate AnswersFresh(w: World, a: Ask) {
    var found := Scan(w.cells, a, w.now, 0).0;
    found.Some? ==> Fresh(w, a, found.value)
  }

  /** At most one cell in use answers a question, so a lookup reads the clock at most once. */
  ghost predicate Unique(cells: seq<Cell>) {
    forall i, j :: 0 <= i < j < |cells| && cells[i].inUse && cells[j].inUse ==> cells[i].ask != cells[j].ask
  }

  ghost predicate Inv(w: World) {
    && w.now < U64 && Unique(w.cells)
    && (forall i :: 0 <= i < |w.cells| && w.cells[i].inUse ==> w.cells[i].stamp <= w.now)
    && w.seen != [] && w.seen[|w.seen| - 1] == Moment(w.now, w.g)
    && (forall k :: 0 <= k < |w.seen| ==> w.seen[k].time <= w.now)
    && (w.call.Some? ==> forall i :: 0 <= i < |w.cells| && w.cells[i].inUse ==> w.cells[i].ask != w.call.value.ask)
  }

  /** Every cell in use was true at the time of its stamp. */
  ghost predicate Anchored(w: World) {
    forall i :: 0 <= i < |w.cells| && w.cells[i].inUse ==>
                  TrueAt(w, w.cells[i].ask, w.cells[i].valid, w.cells[i].stamp)
  }

  /** The answer about to be stamped is true at some moment of the present time, or there is no
      cell to put it in.  It holds whenever the table still gives the answer of the check. */
  ghost predicate Timely(w: World) {
    w.call.Some? ==>
      TrueAt(w, w.call.value.ask, w.call.value.valid, w.now) || FirstUnused(w.cells, 0) == |w.cells|
  }

  /** Cells only fall out of use. */
  ghost predicate Dropped(cells: seq<Cell>, less: seq<Cell>) {
    |less| == |cells| && forall i :: 0 <= i < |cells| ==> less[i] == cells[i] || less[i] == cells[i].(inUse := false)
  }

  /** The lookup answers exactly when some cell in use holds the question and is in time, and touches
      only cells that hold the question and are not. */
  lemma {:induction false} ScanIff(cells: seq<Cell>, a: Ask, now: nat, i: nat)
    requires i <= |cells|
    ensures var r := Scan(cells, a, now, i);
            && (r.0.Some? <==> exists k :: i <= k < |cells| && InTime(cells[k], a, now))
            && (forall k :: 0 <= k < |cells| && r.1[k] != cells[k] ==>
                  cells[k].inUse && cells[k].ask == a && Age(now, cells[k].stamp) >= CAP_CACHE_TTL)
    decreases |cells| - i
  {
    hide Age;
    if i < |cells| {
      var next := if cells[i].inUse && cells[i].ask == a then cells[i := cells[i].(inUse := false)] else cells;
      if !InTime(cells[i], a, now) {
        ScanIff(next, a, now, i + 1);
        assert forall k :: i + 1 <= k < |cells| ==> next[k] == cells[k];
      }
    }
  }

  predicate InTime(cell: Cell, a: Ask, now: nat) {
    cell.inUse && cell.ask == a && Age(now, cell.stamp) < CAP_CACHE_TTL
  }

  /** The sweep takes just the cells past their time out of use, so no lookup at that time misses an
      answer it would have had. */
  lemma SweepIff(cells: seq<Cell>, now: nat, i: nat)
    requires i < |cells|
    ensures var r := CleanAll(cells, now);
            && (r[i].inUse <==> cells[i].inUse && Age(now, cells[i].stamp) <= CAP_CACHE_TTL)
            && r[i] == cells[i].(inUse := r[i].inUse)
    ensures forall a :: Scan(CleanAll(cells, now), a, now, 0).0.Some? <==> Scan(cells, a, now, 0).0.Some?
  {
    hide Age, Scan;
    var r := CleanAll(cells, now);
    forall a
      ensures Scan(r, a, now, 0).0.Some? <==> Scan(cells, a, now, 0).0.Some?
    {
      ScanIff(cells, a, now, 0);
      ScanIff(r, a, now, 0);
      forall k | 0 <= k < |cells|
        ensures InTime(r[k], a, now) <==> InTime(cells[k], a, now)
      {
      }
    }
  }

  /** The lookup: an answer comes from a cell in use and in time; no answer leaves no cell in use
      for the question. */
  lemma {:induction false} ScanFinds(cells: seq<Cell>, a: Ask, now: nat, i: nat)
    requires i <= |cells| && forall j :: 0 <= j < i && cells[j].inUse ==> cells[j].ask != a
    ensures var r := Scan(cells, a, now, i);
            && Dropped(cells, r.1)
            && (r.0.Some? ==> exists k :: 0 <= k < |cells| && cells[k].inUse && cells[k].ask == a
                                          && cells[k].valid == r.0.value && Age(now, cells[k].stamp) < CAP_CACHE_TTL)
            && (r.0.None? ==> forall k :: 0 <= k < |cells| && r.1[k].inUse ==> r.1[k].ask != a)
    decreases |cells| - i
  {
    hide Age;
    if i < |cells| {
      if cells[i].inUse && cells[i].ask == a {
        if Age(now, cells[i].stamp) >= CAP_CACHE_TTL {
          ScanFinds(cells[i := cells[i].(inUse := false)], a, now, i + 1);
        }
      } else {
        ScanFinds(cells, a, now, i + 1);
      }
    }
  }

  lemma DroppedKeeps(w: World, less: seq<Cell>)
    requires Inv(w) && Dropped(w.cells, less)
    ensures Inv(w.(cells := less)) && (Anchored(w) ==> Anchored(w.(cells := less)))
  {
    hide Direct;
    var v := w.(cells := less);
    forall i | Anchored(w) && 0 <= i < |less| && less[i].inUse
      ensures TrueAt(v, less[i].ask, less[i].valid, less[i].stamp)
    {
      SeenMore(w, v, less[i].ask, less[i].valid, less[i].stamp);
    }
  }

  lemma SeenMore(w: World, v: World, a: Ask, answer: bool, time: nat)
    requires w.seen <= v.seen && TrueAt(w, a, answer, time)
    ensures TrueAt(v, a, answer, time)
  {
    hide Direct;
    var k :| 0 <= k < |w.seen| && w.seen[k].time == time && Direct(w.seen[k].g, a) == answer;
    assert v.seen[k] == w.seen[k];
  }

  lemma AnchoredMore(w: World, v: World)
    requires Anchored(w) && v.cells == w.cells && w.seen <= v.seen
    ensures Anchored(v)
  {
    forall i | 0 <= i < |v.cells| && v.cells[i].inUse
      ensures TrueAt(v, v.cells[i].ask, v.cells[i].valid, v.cells[i].stamp)
    {
      SeenMore(w, v, w.cells[i].ask, w.cells[i].valid, w.cells[i].stamp);
    }
  }

  lemma BeginKeeps(w: World, a: Ask)
    requires Inv(w)
    ensures Inv(Next(w, Begin(a))) && (Anchored(w) ==> Anchored(Next(w, Begin(a))))
  {
    if w.call.None? {
      var looked := Scan(w.cells, a, w.now, 0);
      ScanFinds(w.cells, a, w.now, 0);
      hide Direct, Scan, Age, TrueAt;
      DroppedKeeps(w, looked.1);
      var v := w.(cells := looked.1);
      if Anchored(w) { AnchoredMore(v, Next(w, Begin(a))); }
    }
  }

  /** A stamp keeps the cells true at their times exactly when it is timely. */
  lemma FinishIff(w: World)
    requires Inv(w) && Anchored(w)
    ensures Inv(Next(w, Finish)) && (Anchored(Next(w, Finish)) <==> Timely(w))
  {
    hide Direct, TrueAt;
    if w.call.Some? {
      var v, k := Next(w, Finish), FirstUnused(w.cells, 0);
      forall a, answer, time
        ensures TrueAt(v, a, answer, time) == TrueAt(w, a, answer, time)
      {
        SameSeen(w, v, a, answer, time);
      }
      if k < |w.cells| {
        assert v.cells[k] == Cell(true, w.call.value.ask, w.call.value.valid, w.now);
      }
    }
  }

  lemma SameSeen(w: World, v: World, a: Ask, answer: bool, time: nat)
    requires v.seen == w.seen
    ensures TrueAt(v, a, answer, time) == TrueAt(w, a, answer, time)
  {
  }

  lemma FinishInv(w: World)
    requires Inv(w)
    ensures Inv(Next(w, Finish))
  {
    hide Direct;
  }

  lemma NextKeeps(w: World, s: Step)
    requires Inv(w)
    ensures Inv(Next(w, s))
    ensures Anchored(w) && (s == Finish ==> Timely(w)) ==> Anchored(Next(w, s))
  {
    match s
    case Tick =>
      hide Direct, TrueAt;
      if Anchored(w) { AnchoredMore(w, Next(w, s)); }
    case Change(g) =>
      hide Direct, TrueAt;
      if Anchored(w) { AnchoredMore(w, Next(w, s)); }
    case Begin(a) => BeginKeeps(w, a);
    case Finish =>
      FinishInv(w);
      if Anchored(w) { FinishIff(w); }
    case Clean =>
      hide Direct, Age, TrueAt;
      DroppedKeeps(w, CleanAll(w.cells, w.now));
  }

  function Run(w: World, steps: seq<Step>): World
    decreases |steps|
  {
    if steps == [] then w else Run(Next(w, steps[0]), steps[1..])
  }

  /** Every stamp of the run is timely. */
  ghost predicate Prompt(w: World, steps: seq<Step>)
    decreases |steps|
  {
    steps == [] || ((steps[0] == Finish ==> Timely(w)) && Prompt(Next(w, steps[0]), steps[1..]))
  }

  lemma {:induction false} RunKeeps(w: World, steps: seq<Step>)
    requires Inv(w)
    ensures Inv(Run(w, steps))
    ensures Anchored(w) && Prompt(w, steps) ==> Anchored(Run(w, steps))
    decreases |steps|
  {
    hide Next, Inv, Anchored, Timely;
    if steps != [] {
      NextKeeps(w, steps[0]);
      RunKeeps(Next(w, steps[0]), steps[1..]);
    }
  }

  /** An empty cache over any table. */
  function Start(now: nat, g: Graph): World {
    World(now, g, seq(AMP_CAP_CACHE_SIZE, i => Cell(false, Ask(0, 0, 0), false, 0)), None, [Moment(now, g)])
  }

  lemma StartInv(now: nat, g: Graph)
    requires now < U64
    ensures Inv(Start(now, g)) && Anchored(Start(now, g))
  {
  }

  lemma AnchoredIsFresh(w: World, a: Ask)
    requires Inv(w) && Anchored(w)
    ensures AnswersFresh(w, a)
  {
    hide Direct, Scan;
    ScanFinds(w.cells, a, w.now, 0);
    var found := Scan(w.cells, a, w.now, 0).0;
    if found.Some? {
      var i :| 0 <= i < |w.cells| && w.cells[i].inUse && w.cells[i].ask == a
               && w.cells[i].valid == found.value && Age(w.now, w.cells[i].stamp) < CAP_CACHE_TTL;
      SmallAge(w.now, w.cells[i].stamp);
      var k :| 0 <= k < |w.seen| && w.seen[k].time == w.cells[i].stamp && Direct(w.seen[k].g, a) == found.value;
    }
  }

  lemma SmallAge(now: nat, stamp: nat)
    requires stamp <= now < U64
    ensures Age(now, stamp) == now - stamp
  {
    Bits.DivModUnique(now - stamp, U64, 0, now - stamp);
  }

  /** Over every run with timely stamps, the table changing at any point: an answer taken from the
      cache is the one the direct check gives at some moment less than the time to live earlier. */
  lemma CachedAnswer(now: nat, g: Graph, steps: seq<Step>, a: Ask)
    requires now < U64 && Prompt(Start(now, g), steps)
    ensures AnswersFresh(Run(Start(now, g), steps), a)
  {
    hide Run, Prompt, Inv, Anchored, Start;
    StartInv(now, g);
    RunKeeps(Start(now, g), steps);
    AnchoredIsFresh(Run(Start(now, g), steps), a);
  }

  /** A stamp is timely whenever the table still gives the answer of the check, however late. */
  lemma UnchangedIsTimely(w: World)
    requires Inv(w) && (w.call.Some? ==> Direct(w.g, w.call.value.ask) == w.call.value.valid)
    ensures Timely(w)
  {
    assert w.seen[|w.seen| - 1].g == w.g;
  }

  // ---------------------------------------------------------------- stamps that are not timely

  function Ticks(n: nat): seq<Step> {
    if n == 0 then [] else [Tick] + Ticks(n - 1)
  }

  lemma {:induction false} RunTicks(w: World, n: nat)
    requires w.now + n < U64
    ensures var v := Run(w, Ticks(n));
            && v.now == w.now + n && v.g == w.g && v.cells == w.cells && v.call == w.call && w.seen <= v.seen
            && forall k :: |w.seen| <= k < |v.seen| ==> v.seen[k].g == w.g && v.seen[k].time > w.now
    decreases n
  {
    if n > 0 {
      assert Ticks(n)[1..] == Ticks(n - 1);
      RunTicks(Next(w, Tick), n - 1);
    }
  }

  lemma {:induction false} PromptTicks(w: World, n: nat)
    ensures Prompt(w, Ticks(n))
    decreases n
  {
    hide Timely, Next;
    if n > 0 {
      assert Ticks(n)[1..] == Ticks(n - 1);
      PromptTicks(Next(w, Tick), n - 1);
    }
  }

  /** An untimely stamp goes wrong: one time unit before it expires, the entry still answers, and
      its answer is true at no moment of the time to live before. */
  lemma UntimelyGoesStale(w: World)
    requires Inv(w) && !Timely(w) && w.now + CAP_CACHE_TTL < U64
    ensures !AnswersFresh(Run(Next(w, Finish), Ticks(CAP_CACHE_TTL - 1)), w.call.value.ask)
  {
    hide Direct, Run;
    var a, answer, k := w.call.value.ask, w.call.value.valid, FirstUnused(w.cells, 0);
    var v := Next(w, Finish);
    var u := Run(v, Ticks(CAP_CACHE_TTL - 1));
    RunTicks(v, CAP_CACHE_TTL - 1);
    assert u.cells[k] == Cell(true, a, answer, w.now);
    OnlyHit(u.cells, a, u.now, k, 0);
    SmallAge(u.now, w.now);
    assert w.seen[|w.seen| - 1] == Moment(w.now, w.g);
    forall j | 0 <= j < |u.seen| && u.seen[j].time <= u.now < u.seen[j].time + CAP_CACHE_TTL
      ensures Direct(u.seen[j].g, a) != answer
    {
      if j < |w.seen| { assert u.seen[j] == w.seen[j]; }
    }
  }

  /** The one cell in use for a question, still in time, answers it. */
  lemma {:induction false} OnlyHit(cells: seq<Cell>, a: Ask, now: nat, k: nat, i: nat)
    requires i <= k < |cells| && cells[k].inUse && cells[k].ask == a
    requires forall j :: 0 <= j < |cells| && j != k && cells[j].inUse ==> cells[j].ask != a
    ensures Age(now, cells[k].stamp) < CAP_CACHE_TTL ==> Scan(cells, a, now, i).0 == Some(cells[k].valid)
    decreases k - i
  {
    hide Age;
    if i < k { OnlyHit(cells, a, now, k, i + 1); }
  }

  /** From here on every answer is fresh as long as the stamps to come are timely. */
  ghost predicate StaysFresh(w: World) {
    forall steps, a :: Prompt(w, steps) ==> AnswersFresh(Run(w, steps), a)
  }

  /** A stamp leaves every later answer fresh if and only if it is timely. */
  lemma StampIff(w: World)
    requires Inv(w) && Anchored(w) && w.call.Some? && w.now + CAP_CACHE_TTL < U64
    ensures StaysFresh(Next(w, Finish)) <==> Timely(w)
  {
    hide Run, Prompt, Inv, Anchored, AnswersFresh, Timely, Next;
    var v := Next(w, Finish);
    if Timely(w) {
      FinishIff(w);
      forall steps, a | Prompt(v, steps)
        ensures AnswersFresh(Run(v, steps), a)
      {
        RunKeeps(v, steps);
        AnchoredIsFresh(Run(v, steps), a);
      }
    } else {
      UntimelyGoesStale(w);
      PromptTicks(v, CAP_CACHE_TTL - 1);
    }
  }

  lemma {:induction false} RunTwice(w: World, first: seq<Step>, more: seq<Step>)
    ensures Run(w, first + more) == Run(Run(w, first), more)
    decreases |first|
  {
    hide Next;
    if first == [] {
      assert first + more == more;
    } else {
      assert (first + more)[1..] == first[1..] + more;
      RunTwice(Next(w, first[0]), first[1..], more);
    }
  }

  /** Such a stamp is reached from the start: the table changes its answer after the check, time
      passes before the stamp, and the old answer is given when it has been wrong for longer than
      the time to live. */
  lemma StaleAnswer(g: Graph, changed: Graph, a: Ask, delay: nat)
    requires Direct(g, a) != Direct(changed, a) && 1 <= delay && delay + CAP_CACHE_TTL < U64
    ensures var steps := [Begin(a), Change(changed)] + Ticks(delay) + [Finish] + Ticks(CAP_CACHE_TTL - 1);
            !AnswersFresh(Run(Start(0, g), steps), a)
  {
    hide Direct, Run, Ticks, AnswersFresh;
    var w0, first, wait := Start(0, g), [Begin(a), Change(changed)], Ticks(delay);
    var w2 := Run(w0, first);
    MissThenChange(g, changed, a);
    RunTicks(w2, delay);
    var w3 := Run(w2, wait);
    StartInv(0, g);
    RunKeeps(w0, first + wait);
    RunTwice(w0, first, wait);
    assert !TrueAt(w3, a, Direct(g, a), delay);
    assert !w3.cells[0].inUse && FirstUnused(w3.cells, 0) == 0;
    UntimelyGoesStale(w3);
    assert Run(w3, [Finish]) == Next(w3, Finish) by { RunOne(w3, Finish); }
    RunTwice(w0, first + wait, [Finish]);
    RunTwice(w0, first + wait + [Finish], Ticks(CAP_CACHE_TTL - 1));
  }

  lemma RunOne(w: World, s: Step)
    ensures Run(w, [s]) == Next(w, s)
  {
    hide Next;
  }

  lemma MissThenChange(g: Graph, changed: Graph, a: Ask)
    ensures var w := Run(Start(0, g), [Begin(a), Change(changed)]);
            && w.now == 0 && w.g == changed && w.seen == [Moment(0, g), Moment(0, changed)]
            && w.call == Some(Call(a, Direct(g, a))) && |w.cells| > 0 && !w.cells[0].inUse
  {
    var w0 := Start(0, g);
    ScanFinds(w0.cells, a, 0, 0);
    hide Direct, Scan, Run;
    RunTwice(w0, [Begin(a)], [Change(changed)]);
    RunOne(w0, Begin(a));
    RunOne(Next(w0, Begin(a)), Change(changed));
  }
}
