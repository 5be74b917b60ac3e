/** The stack-balance checker: a worklist over (block, stack offset) pairs.

    Blocks are taken as `parse_asm` delivers them, with operands already read.  The number of pairs
    need not be finite, so the search is a machine that takes one turn of its loop at a time. */
module StackCheck {
  import opened Capability

  datatype Mnemonic = Push | Pop | Call | Ret | Iret | Iretq | Sysret | Sysretq | Leave | Add | Sub | Other

  /** One instruction with what the operand helpers make of it: `imm` is what `parse_ret_imm` returns
      for a `ret` and `imm_effect` for an `add` or `sub`, `dynamic` is the answer of
      `is_dynamic_rsp_adjustment`, `fixed` the FIXED_SIZE annotation. */
  datatype Inst = Inst(op: Mnemonic, imm: int, dynamic: bool, fixed: Option<nat>)

  datatype Block = Block(insts: seq<Inst>, successors: seq<nat>)

  /** The blocks of a file; successors name blocks. */
  type Program = p: seq<Block> | forall i, b :: 0 <= i < |p| && b in p[i].successors ==> b < |p|

  /** `get_stack_effect`; `Iret` has no entry. */
  function TableEffect(bits: nat, op: Mnemonic): Option<int> {
    var unit := if bits == 64 then 8 else 4;
    match op
    case Push => Some(-unit)
    case Pop => Some(unit)
    case Call => Some(-unit)
    case Ret => Some(unit)
    case Iretq => Some(24)
    case Sysret => Some(8)
    case Sysretq => Some(8)
    case Leave => Some(unit)
    case _ => None
  }

  /** The change one instruction makes; nothing when it cannot be told. */
  function Effect(bits: nat, i: Inst): Option<int> {
    if (i.op == Add || i.op == Sub) && i.dynamic then
      match i.fixed
      case None => None
      case Some(n) => var size: int := n; Some(if i.op == Sub then -size else size)
    else if TableEffect(bits, i.op).Some? then
      Some(TableEffect(bits, i.op).value + if i.op == Ret then i.imm else 0)
    else if i.op == Add || i.op == Sub then Some(i.imm)
    else Some(0)
  }

  function Net(bits: nat, insts: seq<Inst>): Option<int> {
    if insts == [] then Some(0)
    else
      match (Net(bits, insts[..|insts| - 1]), Effect(bits, insts[|insts| - 1]))
      case (Some(a), Some(b)) => Some(a + b)
      case _ => None
  }

  predicate Returning(b: Block) {
    b.insts != [] && b.insts[|b.insts| - 1].op in {Ret, Iret, Iretq, Sysret, Sysretq}
  }

  // ---------------------------------------------------------------- the search

  datatype Config = Config(block: nat, offset: int)

  datatype Item = Item(at: Config, path: seq<nat>)

  /** A returning block reached with a stack that is not level, and how it was reached. */
  datatype Report = Report(path: seq<nat>, offset: int)

  datatype Search = Search(worklist: seq<Item>, visited: set<Config>, errors: seq<Report>, skipped: bool)

  function Begin(entry: nat, offset: int): Search {
    Search([Item(Config(entry, offset), [entry])], {}, [], false)
  }

  predicate Ended(s: Search) {
    s.skipped || s.worklist == []
  }

  function Spread(item: Item, out: int, successors: seq<nat>): (items: seq<Item>)
    ensures |items| == |successors|
    ensures forall k :: 0 <= k < |items| ==> items[k] == Item(Config(successors[k], out), item.path + [successors[k]])
  {
    seq(|successors|, k requires 0 <= k < |successors| => Item(Config(successors[k], out), item.path + [successors[k]]))
  }

  predicate InProgram(p: Program, s: Search) {
    forall k :: 0 <= k < |s.worklist| ==> s.worklist[k].at.block < |p|
  }

  /** One turn of the loop of `analyze_function`. */
  function Turn(p: Program, bits: nat, s: Search): (r: Search)
    requires InProgram(p, s) && !Ended(s)
    ensures InProgram(p, r)
  {
    var item, rest := s.worklist[0], s.worklist[1..];
    if item.at in s.visited then s.(worklist := rest)
    else
      var block, visited := p[item.at.block], s.visited + {item.at};
      match Net(bits, block.insts)
      case None => Search(rest, visited, [], true)
      case Some(net) =>
        var out := item.at.offset + net;
        if block.insts == [] then Search(rest, visited, s.errors, false)
        else if Returning(block) then
          Search(rest, visited, s.errors + if out != 0 then [Report(item.path, out)] else [], false)
        else Search(rest + Spread(item, out, block.successors), visited, s.errors, false)
  }

  /** The search after `n` turns, or where it ended before. */
  function After(p: Program, bits: nat, s: Search, n: nat): (r: Search)
    requires InProgram(p, s)
    ensures InProgram(p, r)
    decreases n
  {
    if n == 0 || Ended(s) then s else After(p, bits, Turn(p, bits, s), n - 1)
  }

  // ---------------------------------------------------------------- the loop

  /** Its inner loop, which stops at an adjustment it cannot tell. */
  method BlockNet(bits: nat, insts: seq<Inst>) returns (net: Option<int>)
    ensures net == Net(bits, insts)
  {
    var sum, i := 0, 0;
    while i < |insts|
      invariant i <= |insts|
      invariant Net(bits, insts[..i]) == Some(sum)
    {
      var effect := Effect(bits, insts[i]);
      NetStep(bits, insts, i);
      if effect.None? {
        NetStuck(bits, insts, i + 1);
        return None;
      }
      sum := sum + effect.value;
      i := i + 1;
    }
    assert insts[..i] == insts;
    return Some(sum);
  }

  /** `analyze_function`, on inputs where its loop ends: `bound` turns are enough. */
  method Analyze(p: Program, bits: nat, entry: nat, offset: int, ghost bound: nat) returns (s: Search)
    requires entry < |p| && Ended(After(p, bits, Begin(entry, offset), bound))
    ensures s == After(p, bits, Begin(entry, offset), bound)
  {
    hide Net, Returning, After;
    var worklist: seq<Item> := [Item(Config(entry, offset), [entry])];
    var visited: set<Config> := {};
    var errors: seq<Report> := [];
    ghost var left := bound;
    while worklist != []
      invariant InProgram(p, Search(worklist, visited, errors, false))
      invariant After(p, bits, Search(worklist, visited, errors, false), left) == After(p, bits, Begin(entry, offset), bound)
      decreases left
    {
      var item := worklist[0];
      ghost var before := Search(worklist, visited, errors, false);
      AfterOne(p, bits, before, left);
      worklist := worklist[1..];
      left := left - 1;
      if item.at in visited {
        assert Search(worklist, visited, errors, false) == Turn(p, bits, before);
        continue;
      }
      visited := visited + {item.at};
      var block := p[item.at.block];
      var net := BlockNet(bits, block.insts);
      if net.None? {
        AfterEnded(p, bits, Turn(p, bits, before), left);
        return Search(worklist, visited, [], true);
      }
      var current := item.at.offset + net.value;
      if block.insts != [] {
        if Returning(block) {
          if current != 0 { errors := errors + [Report(item.path, current)]; }
        } else {
          worklist := worklist + Spread(item, current, block.successors);
        }
      }
      assert Search(worklist, visited, errors, false) == Turn(p, bits, before);
    }
    AfterEnded(p, bits, Search(worklist, visited, errors, false), left);
    return Search(worklist, visited, errors, false);
  }

  lemma AfterEnded(p: Program, bits: nat, s: Search, n: nat)
    requires InProgram(p, s) && Ended(s)
    ensures After(p, bits, s, n) == s
  {
  }

  lemma AfterOne(p: Program, bits: nat, s: Search, n: nat)
    requires InProgram(p, s) && !Ended(s) && Ended(After(p, bits, s, n))
    ensures n > 0 && After(p, bits, s, n) == After(p, bits, Turn(p, bits, s), n - 1)
  {
  }

  lemma NetStep(bits: nat, insts: seq<Inst>, i: nat)
    requires i < |insts|
    ensures Net(bits, insts[..i + 1])
            == match (Net(bits, insts[..i]), Effect(bits, insts[i]))
               case (Some(a), Some(b)) => Some(a + b)
               case _ => None
  {
    assert insts[..i + 1][..i] == insts[..i];
  }

  lemma {:induction false} NetStuck(bits: nat, insts: seq<Inst>, i: nat)
    requires i <= |insts| && Net(bits, insts[..i]).None?
    ensures Net(bits, insts).None?
    decreases |insts|
  {
    if i == |insts| {
      assert insts[..i] == insts;
    } else {
      assert insts[..|insts| - 1][..i] == insts[..i];
      NetStuck(bits, insts[..|insts| - 1], i);
    }
  }

  // ---------------------------------------------------------------- paths

  /** The offset with which a block is left. */
  function Out(p: Program, bits: nat, c: Config): int
    requires c.block < |p|
  {
    c.offset + if Net(bits, p[c.block].insts).Some? then Net(bits, p[c.block].insts).value else 0
  }

  predicate Stuck(p: Program, bits: nat, c: Config)
    requires c.block < |p|
  {
    Net(bits, p[c.block].insts).None?
  }

  /** The blocks control may go to next. */
  function Onward(p: Program, bits: nat, c: Config): (bs: seq<nat>)
    requires c.block < |p|
    ensures forall b :: b in bs ==> b < |p|
  {
    var block := p[c.block];
    if Stuck(p, bits, c) || block.insts == [] || Returning(block) then [] else block.successors
  }

  predicate Unbalanced(p: Program, bits: nat, c: Config)
    requires c.block < |p|
  {
    !Stuck(p, bits, c) && Returning(p[c.block]) && Out(p, bits, c) != 0
  }

  /** Where a path of blocks leads, and with what offset; nothing when it is no path. */
  function Follow(p: Program, bits: nat, start: Config, path: seq<nat>): (c: Option<Config>)
    requires start.block < |p|
    ensures c.Some? ==> c.value.block < |p|
  {
    if path == [] then None
    else
      var b, before := path[|path| - 1], path[..|path| - 1];
      if before == [] then if b == start.block then Some(start) else None
      else
        match Follow(p, bits, start, before)
        case None => None
        case Some(c) => if b in Onward(p, bits, c) then Some(Config(b, Out(p, bits, c))) else None
  }

  ghost predicate Reachable(p: Program, bits: nat, start: Config, c: Config)
    requires start.block < |p|
  {
    exists path :: Follow(p, bits, start, path) == Some(c)
  }

  lemma FollowOn(p: Program, bits: nat, start: Config, path: seq<nat>, b: nat)
    requires start.block < |p| && Follow(p, bits, start, path).Some?
    requires b in Onward(p, bits, Follow(p, bits, start, path).value)
    ensures Follow(p, bits, start, path + [b]) == Some(Config(b, Out(p, bits, Follow(p, bits, start, path).value)))
  {
    assert (path + [b])[..|path|] == path;
  }

  // ---------------------------------------------------------------- what the search keeps

  function Waiting(s: Search): set<Config> {
    set k | 0 <= k < |s.worklist| :: s.worklist[k].at
  }

  /** Every queued item was reached by the path it carries. */
  ghost predicate Genuine(p: Program, bits: nat, start: Config, s: Search)
    requires start.block < |p|
  {
    && (forall k :: 0 <= k < |s.worklist| ==> Follow(p, bits, start, s.worklist[k].path) == Some(s.worklist[k].at))
    && (forall c :: c in s.visited ==> c.block < |p| && Reachable(p, bits, start, c))
  }

  /** Whatever comes after a visited pair was visited or is queued. */
  ghost predicate Frontier(p: Program, bits: nat, start: Config, s: Search)
    requires forall c :: c in s.visited ==> c.block < |p|
  {
    && start in s.visited + Waiting(s)
    && (forall c :: c in s.visited ==> !Stuck(p, bits, c))
    && (forall c, b :: c in s.visited && b in Onward(p, bits, c) ==> Config(b, Out(p, bits, c)) in s.visited + Waiting(s))
  }

  /** Each report tells of a path to an unbalanced return, and each one visited is reported. */
  ghost predicate Reported(p: Program, bits: nat, start: Config, s: Search)
    requires start.block < |p| && forall c :: c in s.visited ==> c.block < |p|
  {
    && (forall k :: 0 <= k < |s.errors| ==>
          && Follow(p, bits, start, s.errors[k].path).Some?
          && Unbalanced(p, bits, Follow(p, bits, start, s.errors[k].path).value)
          && s.errors[k].offset == Out(p, bits, Follow(p, bits, start, s.errors[k].path).value))
    && (forall c :: c in s.visited && Unbalanced(p, bits, c) ==>
          exists k :: 0 <= k < |s.errors| && Follow(p, bits, start, s.errors[k].path) == Some(c))
  }

  ghost predicate Inv(p: Program, bits: nat, start: Config, s: Search)
    requires start.block < |p|
  {
    InProgram(p, s) && Genuine(p, bits, start, s) && Frontier(p, bits, start, s) && Reported(p, bits, start, s)
  }

  /** A turn that visits a new pair queues what comes after it and reports it if unbalanced. */
  lemma TurnVisits(p: Program, bits: nat, s: Search)
    requires InProgram(p, s) && !Ended(s) && s.worklist[0].at !in s.visited && !Stuck(p, bits, s.worklist[0].at)
    ensures var item := s.worklist[0];
            Turn(p, bits, s) == Search(s.worklist[1..] + Spread(item, Out(p, bits, item.at), Onward(p, bits, item.at)),
                                       s.visited + {item.at},
                                       s.errors + if Unbalanced(p, bits, item.at)
                                                  then [Report(item.path, Out(p, bits, item.at))] else [],
                                       false)
  {
    hide Net;
    var item := s.worklist[0];
    var items := Spread(item, Out(p, bits, item.at), Onward(p, bits, item.at));
    assert items == [] ==> s.worklist[1..] + items == s.worklist[1..];
    assert s.errors + [] == s.errors;
  }

  lemma WaitingSplits(s: Search)
    requires s.worklist != []
    ensures Waiting(s) == {s.worklist[0].at} + Waiting(s.(worklist := s.worklist[1..]))
  {
    var rest := s.(worklist := s.worklist[1..]);
    forall c | c in Waiting(s)
      ensures c in {s.worklist[0].at} + Waiting(rest)
    {
      var k :| 0 <= k < |s.worklist| && s.worklist[k].at == c;
      if k > 0 { assert rest.worklist[k - 1].at == c; }
    }
    forall c | c in Waiting(rest)
      ensures c in Waiting(s)
    {
      var k :| 0 <= k < |rest.worklist| && rest.worklist[k].at == c;
      assert s.worklist[k + 1].at == c;
    }
  }

  lemma WaitingGrows(s: Search, items: seq<Item>)
    ensures Waiting(s) <= Waiting(s.(worklist := s.worklist + items))
    ensures forall k :: 0 <= k < |items| ==> items[k].at in Waiting(s.(worklist := s.worklist + items))
  {
    var t := s.(worklist := s.worklist + items);
    forall c | c in Waiting(s)
      ensures c in Waiting(t)
    {
      var k :| 0 <= k < |s.worklist| && s.worklist[k].at == c;
      assert t.worklist[k].at == c;
    }
    forall k | 0 <= k < |items|
      ensures items[k].at in Waiting(t)
    {
      assert t.worklist[|s.worklist| + k].at == items[k].at;
    }
  }

  lemma DropKeeps(p: Program, bits: nat, start: Config, s: Search)
    requires start.block < |p| && Inv(p, bits, start, s) && !Ended(s) && s.worklist[0].at in s.visited
    ensures Inv(p, bits, start, s.(worklist := s.worklist[1..]))
  {
    hide Follow, Stuck, Onward, Out, Unbalanced, Reachable, Waiting;
    WaitingSplits(s);
  }

  lemma VisitGenuine(p: Program, bits: nat, start: Config, s: Search)
    requires start.block < |p| && Inv(p, bits, start, s) && !Ended(s)
    requires s.worklist[0].at !in s.visited && !Stuck(p, bits, s.worklist[0].at)
    ensures Genuine(p, bits, start, Turn(p, bits, s)) && InProgram(p, Turn(p, bits, s))
  {
    hide Turn, Stuck, Onward, Out, Unbalanced, Follow;
    TurnVisits(p, bits, s);
    var item, r := s.worklist[0], Turn(p, bits, s);
    var items := Spread(item, Out(p, bits, item.at), Onward(p, bits, item.at));
    forall k | 0 <= k < |items|
      ensures Follow(p, bits, start, items[k].path) == Some(items[k].at)
    {
      FollowOn(p, bits, start, item.path, Onward(p, bits, item.at)[k]);
    }
  }

  lemma VisitFrontier(p: Program, bits: nat, start: Config, s: Search)
    requires start.block < |p| && Inv(p, bits, start, s) && !Ended(s)
    requires s.worklist[0].at !in s.visited && !Stuck(p, bits, s.worklist[0].at)
    ensures Frontier(p, bits, start, Turn(p, bits, s))
  {
    hide Turn, Stuck, Onward, Out, Unbalanced, Follow, Waiting, Reachable;
    TurnVisits(p, bits, s);
    var item, r := s.worklist[0], Turn(p, bits, s);
    var items := Spread(item, Out(p, bits, item.at), Onward(p, bits, item.at));
    var rest := s.(worklist := s.worklist[1..]);
    WaitingSplits(s);
    WaitingGrows(rest, items);
    SameWaiting(rest.(worklist := rest.worklist + items), r);
    assert s.visited + Waiting(s) <= r.visited + Waiting(r);
    forall b | b in Onward(p, bits, item.at)
      ensures Config(b, Out(p, bits, item.at)) in Waiting(r)
    {
      var k :| 0 <= k < |items| && Onward(p, bits, item.at)[k] == b;
      assert items[k].at in Waiting(r);
    }
  }

  lemma SameWaiting(s: Search, t: Search)
    requires s.worklist == t.worklist
    ensures Waiting(s) == Waiting(t)
  {
  }

  lemma VisitReported(p: Program, bits: nat, start: Config, s: Search)
    requires start.block < |p| && Inv(p, bits, start, s) && !Ended(s)
    requires s.worklist[0].at !in s.visited && !Stuck(p, bits, s.worklist[0].at)
    ensures forall c :: c in Turn(p, bits, s).visited ==> c.block < |p|
    ensures Reported(p, bits, start, Turn(p, bits, s))
  {
    hide Turn, Stuck, Onward, Out, Unbalanced, Follow, Waiting, Reachable, Spread;
    TurnVisits(p, bits, s);
    var item, r := s.worklist[0], Turn(p, bits, s);
    forall c | c in r.visited && Unbalanced(p, bits, c)
      ensures exists k :: 0 <= k < |r.errors| && Follow(p, bits, start, r.errors[k].path) == Some(c)
    {
      if c == item.at {
        assert r.errors[|s.errors|].path == item.path;
      } else {
        var k :| 0 <= k < |s.errors| && Follow(p, bits, start, s.errors[k].path) == Some(c);
        assert r.errors[k] == s.errors[k];
      }
    }
  }

  /** A turn keeps the invariant, or meets an adjustment it cannot tell on a reachable pair. */
  lemma TurnKeeps(p: Program, bits: nat, start: Config, s: Search)
    requires start.block < |p| && Inv(p, bits, start, s) && !Ended(s)
    ensures var r := Turn(p, bits, s);
            if r.skipped
            then r.errors == [] && Reachable(p, bits, start, s.worklist[0].at) && Stuck(p, bits, s.worklist[0].at)
            else Inv(p, bits, start, r)
  {
    if s.worklist[0].at in s.visited {
      DropKeeps(p, bits, start, s);
    } else if !Stuck(p, bits, s.worklist[0].at) {
      hide Turn, Stuck, Genuine, Frontier, Reported;
      TurnVisits(p, bits, s);
      VisitGenuine(p, bits, start, s);
      VisitFrontier(p, bits, start, s);
      VisitReported(p, bits, start, s);
    }
  }

  // ---------------------------------------------------------------- when the search ends

  lemma BeginInv(p: Program, bits: nat, start: Config)
    requires start.block < |p|
    ensures Inv(p, bits, start, Begin(start.block, start.offset))
  {
    hide Net;
    var s := Begin(start.block, start.offset);
    assert s.worklist[0].at == start;
  }

  /** What every moment of the search satisfies. */
  ghost predicate Sound(p: Program, bits: nat, start: Config, s: Search)
    requires start.block < |p|
  {
    if s.skipped then s.errors == [] && exists c: Config :: Reachable(p, bits, start, c) && c.block < |p| && Stuck(p, bits, c)
    else Inv(p, bits, start, s)
  }

  lemma {:induction false} AfterSound(p: Program, bits: nat, start: Config, s: Search, n: nat)
    requires start.block < |p| && InProgram(p, s) && Sound(p, bits, start, s)
    ensures Sound(p, bits, start, After(p, bits, s, n))
    decreases n
  {
    hide Turn, Inv, Stuck, Reachable;
    if n > 0 && !Ended(s) {
      TurnKeeps(p, bits, start, s);
      AfterSound(p, bits, start, Turn(p, bits, s), n - 1);
    }
  }

  /** A set of pairs with the start and everything that comes after its members has every path. */
  lemma {:induction false} ClosedHolds(p: Program, bits: nat, start: Config, cs: set<Config>, path: seq<nat>)
    requires start.block < |p| && start in cs && forall c :: c in cs ==> c.block < |p|
    requires forall c, b :: c in cs && b in Onward(p, bits, c) ==> Config(b, Out(p, bits, c)) in cs
    requires Follow(p, bits, start, path).Some?
    ensures Follow(p, bits, start, path).value in cs
    decreases |path|
  {
    hide Onward, Out;
    if |path| > 1 {
      ClosedHolds(p, bits, start, cs, path[..|path| - 1]);
    }
  }

  /** When the loop ends without meeting an adjustment it cannot tell, it has visited exactly the
      reachable pairs; it reports an error if and only if some path reaches a return with the stack
      not level, and every report is such a path. */
  lemma WhenEnded(p: Program, bits: nat, start: Config, n: nat)
    requires start.block < |p|
    ensures var s := After(p, bits, Begin(start.block, start.offset), n);
            Ended(s) && !s.skipped ==>
              && (forall c :: c in s.visited <==> Reachable(p, bits, start, c))
              && (s.errors != [] <==>
                    exists c: Config :: c.block < |p| && Reachable(p, bits, start, c) && Unbalanced(p, bits, c))
              && (forall r :: r in s.errors ==>
                    && Follow(p, bits, start, r.path).Some? && Unbalanced(p, bits, Follow(p, bits, start, r.path).value)
                    && r.offset == Out(p, bits, Follow(p, bits, start, r.path).value))
  {
    hide Onward, Out, Unbalanced, Stuck, Follow, After;
    var s := After(p, bits, Begin(start.block, start.offset), n);
    BeginInv(p, bits, start);
    AfterSound(p, bits, start, Begin(start.block, start.offset), n);
    if Ended(s) && !s.skipped {
      assert Waiting(s) == {};
      forall path | Follow(p, bits, start, path).Some?
        ensures Follow(p, bits, start, path).value in s.visited
      {
        ClosedHolds(p, bits, start, s.visited, path);
      }
      if s.errors != [] {
        var path := s.errors[0].path;
        assert Reachable(p, bits, start, Follow(p, bits, start, path).value);
      }
    }
  }

  // ---------------------------------------------------------------- whether the search ends

  /** Some path meets an adjustment of the stack pointer that cannot be told. */
  ghost predicate MeetsUntold(p: Program, bits: nat, start: Config)
    requires start.block < |p|
  {
    exists c: Config :: Reachable(p, bits, start, c) && c.block < |p| && Stuck(p, bits, c)
  }

  ghost predicate Covers(p: Program, bits: nat, start: Config, all: set<Config>)
    requires start.block < |p|
  {
    forall c :: Reachable(p, bits, start, c) ==> c in all
  }

  ghost predicate FinitelyMany(p: Program, bits: nat, start: Config)
    requires start.block < |p|
  {
    exists all: set<Config> :: Covers(p, bits, start, all)
  }

  lemma {:induction false} AfterTwice(p: Program, bits: nat, s: Search, m: nat, n: nat)
    requires InProgram(p, s)
    ensures After(p, bits, s, m + n) == After(p, bits, After(p, bits, s, m), n)
    decreases m
  {
    hide Turn;
    if m > 0 && !Ended(s) { AfterTwice(p, bits, Turn(p, bits, s), m - 1, n); }
  }

  /** First in, first out: the item at place `k` is visited within `k + 1` turns. */
  lemma {:induction false} QueuedIsVisited(p: Program, bits: nat, s: Search, k: nat)
    requires InProgram(p, s) && !s.skipped && k < |s.worklist|
    ensures var r := After(p, bits, s, k + 1); r.skipped || s.worklist[k].at in r.visited
    decreases k
  {
    hide Net, Returning;
    var r := Turn(p, bits, s);
    assert After(p, bits, s, k + 1) == After(p, bits, r, k);
    if k == 0 {
      assert s.worklist[0].at in r.visited;
    } else if !r.skipped {
      assert r.worklist[k - 1] == s.worklist[k];
      QueuedIsVisited(p, bits, r, k - 1);
    }
  }

  lemma {:induction false} ReachedIsVisited(p: Program, bits: nat, start: Config, path: seq<nat>) returns (n: nat)
    requires start.block < |p| && Follow(p, bits, start, path).Some?
    ensures var r := After(p, bits, Begin(start.block, start.offset), n);
            r.skipped || Follow(p, bits, start, path).value in r.visited
    decreases |path|
  {
    hide Turn, Onward, Out, After, Stuck;
    var s := Begin(start.block, start.offset);
    if |path| == 1 {
      QueuedIsVisited(p, bits, s, 0);
      n := 1;
    } else {
      var c, b := Follow(p, bits, start, path[..|path| - 1]).value, path[|path| - 1];
      var m := ReachedIsVisited(p, bits, start, path[..|path| - 1]);
      n := NextIsVisited(p, bits, start, m, c, b);
    }
  }

  lemma NextIsVisited(p: Program, bits: nat, start: Config, m: nat, c: Config, b: nat) returns (n: nat)
    requires start.block < |p| && c.block < |p| && b in Onward(p, bits, c)
    requires var s := After(p, bits, Begin(start.block, start.offset), m); s.skipped || c in s.visited
    ensures var r := After(p, bits, Begin(start.block, start.offset), n);
            r.skipped || Config(b, Out(p, bits, c)) in r.visited
  {
    hide Turn, Onward, Out, After, Stuck, Genuine, Reported;
    n := m;
    var s := Begin(start.block, start.offset);
    var t := After(p, bits, s, m);
    BeginInv(p, bits, start);
    AfterSound(p, bits, start, s, m);
    var d := Config(b, Out(p, bits, c));
    if !t.skipped && d !in t.visited {
      assert d in Waiting(t);
      var k :| 0 <= k < |t.worklist| && t.worklist[k].at == d;
      QueuedIsVisited(p, bits, t, k);
      AfterTwice(p, bits, s, m, k + 1);
      n := m + (k + 1);
    }
  }

  lemma TurnProgress(p: Program, bits: nat, s: Search)
    requires InProgram(p, s) && !Ended(s)
    ensures Turn(p, bits, s).visited == s.visited + {s.worklist[0].at}
    ensures s.worklist[0].at in s.visited ==> |Turn(p, bits, s).worklist| < |s.worklist|
  {
    hide Net, Returning;
  }

  /** With finitely many pairs to visit the search ends. */
  lemma {:induction false} FiniteEnds(p: Program, bits: nat, start: Config, s: Search, all: set<Config>) returns (n: nat)
    requires start.block < |p| && InProgram(p, s) && Sound(p, bits, start, s)
    requires Covers(p, bits, start, all)
    ensures Ended(After(p, bits, s, n))
    decreases |all - s.visited|, |s.worklist|
  {
    hide Turn, Follow, Frontier, Reported, Stuck;
    if Ended(s) {
      n := 0;
    } else {
      var r := Turn(p, bits, s);
      TurnKeeps(p, bits, start, s);
      TurnProgress(p, bits, s);
      if r.skipped {
        n := 1;
      } else {
        if s.worklist[0].at !in s.visited {
          assert Reachable(p, bits, start, s.worklist[0].at);
          assert s.worklist[0].at in all - s.visited && all - r.visited == (all - s.visited) - {s.worklist[0].at};
        }
        var m := FiniteEnds(p, bits, start, r, all);
        n := m + 1;
      }
    }
  }

  // ---------------------------------------------------------------- drifting

  /** No path comes back to a block with another offset: every cycle that can be reached is level. */
  ghost predicate NoDrift(p: Program, bits: nat, start: Config)
    requires start.block < |p|
  {
    forall path: seq<nat>, i: nat ::
      Follow(p, bits, start, path).Some? && i < |path| && path[i] == path[|path| - 1] ==>
        Follow(p, bits, start, path[..i + 1]) == Follow(p, bits, start, path)
  }

  lemma {:induction false} PrefixFollows(p: Program, bits: nat, start: Config, path: seq<nat>, n: nat)
    requires start.block < |p| && Follow(p, bits, start, path).Some? && 1 <= n <= |path|
    ensures Follow(p, bits, start, path[..n]).Some? && Follow(p, bits, start, path[..n]).value.block == path[n - 1] < |p|
    decreases |path|
  {
    hide Onward, Out;
    if n == |path| {
      assert path[..n] == path;
    } else {
      var front := path[..|path| - 1];
      PrefixFollows(p, bits, start, front, n);
      assert front[..n] == path[..n];
    }
  }

  /** The same blocks from the same block, but at another offset, lead on shifted by the difference. */
  lemma {:induction false} Shifted(p: Program, bits: nat, start: Config, path: seq<nat>, other: seq<nat>, more: seq<nat>)
    requires start.block < |p| && Follow(p, bits, start, path + more).Some? && path != []
    requires Follow(p, bits, start, path).Some? && Follow(p, bits, start, other).Some?
    requires Follow(p, bits, start, path).value.block == Follow(p, bits, start, other).value.block
    ensures var c, d, e := Follow(p, bits, start, path).value, Follow(p, bits, start, path + more).value,
                           Follow(p, bits, start, other).value;
            Follow(p, bits, start, other + more) == Some(Config(d.block, d.offset + (e.offset - c.offset)))
    decreases |more|
  {
    hide Follow, Onward, Out;
    if more == [] {
      assert path + more == path && other + more == other;
    } else {
      var front, b := more[..|more| - 1], more[|more| - 1];
      assert path + more == path + front + [b] && other + more == other + front + [b];
      PrefixFollows(p, bits, start, path + more, |path + front|);
      assert (path + more)[..|path + front|] == path + front;
      Shifted(p, bits, start, path, other, front);
      assert other != [] by { FollowNothing(p, bits, start); }
      FollowStep(p, bits, start, path + front, b);
      FollowStep(p, bits, start, other + front, b);
      SameBlock(p, bits, Follow(p, bits, start, path + front).value, Follow(p, bits, start, other + front).value);
    }
  }

  lemma FollowNothing(p: Program, bits: nat, start: Config)
    requires start.block < |p|
    ensures Follow(p, bits, start, []).None?
  {
  }

  lemma FollowStep(p: Program, bits: nat, start: Config, path: seq<nat>, b: nat)
    requires start.block < |p| && path != [] && Follow(p, bits, start, path).Some?
    ensures var c := Follow(p, bits, start, path).value;
            Follow(p, bits, start, path + [b]) == if b in Onward(p, bits, c) then Some(Config(b, Out(p, bits, c))) else None
  {
    assert (path + [b])[..|path|] == path;
  }

  /** Where control goes does not depend on the offset. */
  lemma SameBlock(p: Program, bits: nat, c: Config, d: Config)
    requires c.block == d.block < |p|
    ensures Onward(p, bits, c) == Onward(p, bits, d) && Out(p, bits, d) - d.offset == Out(p, bits, c) - c.offset
  {
    hide Net, Returning;
  }

  /** Going round a drifting cycle `k` times drifts `k` times as far. */
  lemma {:induction false} Laps(p: Program, bits: nat, start: Config, path: seq<nat>, i: nat, k: nat) returns (round: seq<nat>)
    requires start.block < |p| && Follow(p, bits, start, path).Some? && i < |path| - 1 && path[i] == path[|path| - 1]
    requires Follow(p, bits, start, path[..i + 1]).Some?
    ensures var c, d := Follow(p, bits, start, path[..i + 1]).value, Follow(p, bits, start, path).value;
            Follow(p, bits, start, round) == Some(Config(d.block, c.offset + k * (d.offset - c.offset)))
    decreases k
  {
    hide Follow;
    var stem, lap := path[..i + 1], path[i + 1..];
    assert stem + lap == path;
    PrefixFollows(p, bits, start, path, |path|);
    PrefixFollows(p, bits, start, path, i + 1);
    assert path[..|path|] == path;
    if k == 0 {
      round := stem;
    } else {
      var before := Laps(p, bits, start, path, i, k - 1);
      Shifted(p, bits, start, stem, before, lap);
      round := before + lap;
      var c, d := Follow(p, bits, start, stem).value, Follow(p, bits, start, path).value;
      OneMore(k, d.offset - c.offset);
    }
  }

  lemma OneMore(k: nat, d: int)
    requires k >= 1
    ensures k * d == (k - 1) * d + d
  {
  }

  lemma {:induction false} OffsetsBounded(cs: set<Config>) returns (bound: nat)
    ensures forall c :: c in cs ==> 0 - bound < c.offset < bound
  {
    if cs == {} {
      bound := 0;
    } else {
      var c :| c in cs;
      var rest := OffsetsBounded(cs - {c});
      bound := rest + (if c.offset < 0 then -c.offset else c.offset) + 1;
    }
  }

  /** Far enough round, a non-zero drift leaves every bound. */
  lemma FarOut(start: int, drift: int, k: nat, bound: nat)
    requires drift != 0 && k >= bound + (if start < 0 then -start else start)
    ensures !(0 - bound < start + k * drift < bound)
  {
    if drift > 0 { assert k * drift >= k; } else { assert k * drift <= 0 - k; }
  }

  lemma FiniteNoDrift(p: Program, bits: nat, start: Config)
    requires start.block < |p| && FinitelyMany(p, bits, start)
    ensures NoDrift(p, bits, start)
  {
    hide Follow;
    var all: set<Config> :| Covers(p, bits, start, all);
    forall path: seq<nat>, i: nat | Follow(p, bits, start, path).Some? && i < |path| && path[i] == path[|path| - 1]
      ensures Follow(p, bits, start, path[..i + 1]) == Follow(p, bits, start, path)
    {
      PrefixFollows(p, bits, start, path, i + 1);
      PrefixFollows(p, bits, start, path, |path|);
      assert path[..|path|] == path;
      var c, d := Follow(p, bits, start, path[..i + 1]).value, Follow(p, bits, start, path).value;
      if c.offset != d.offset {
        assert i < |path| - 1;
        var bound := OffsetsBounded(all);
        var k := bound + (if c.offset < 0 then -c.offset else c.offset);
        var round := Laps(p, bits, start, path, i, k);
        assert Reachable(p, bits, start, Follow(p, bits, start, round).value);
        FarOut(c.offset, d.offset - c.offset, k, bound);
      }
    }
  }

  // ---------------------------------------------------------------- short paths are enough

  lemma {:induction false} FewBelow(ns: set<nat>, n: nat)
    requires forall x :: x in ns ==> x < n
    ensures |ns| <= n
  {
    if n > 0 {
      FewBelow(ns - {n - 1}, n - 1);
    } else {
      assert ns == {};
    }
  }

  /** More blocks on a path than there are blocks: one comes twice. */
  lemma Repeats(path: seq<nat>, n: nat)
    requires |path| > n && forall k :: 0 <= k < |path| ==> path[k] < n
    ensures exists i: nat, j: nat :: i < j < |path| && path[i] == path[j]
  {
    if forall i: nat, j: nat :: i < j < |path| ==> path[i] != path[j] {
      AllDifferent(path);
      FewBelow(BlocksOf(path), n);
    }
  }

  function BlocksOf(path: seq<nat>): set<nat> {
    set x | x in path
  }

  lemma {:induction false} AllDifferent(path: seq<nat>)
    requires forall a: nat, b: nat :: a < b < |path| ==> path[a] != path[b]
    ensures |BlocksOf(path)| == |path|
  {
    if path != [] {
      var front, last := path[..|path| - 1], path[|path| - 1];
      AllDifferent(front);
      assert path == front + [last];
      assert BlocksOf(path) == BlocksOf(front) + {last};
    }
  }

  /** Without drift whatever is reached is reached by a path no longer than the program. */
  lemma {:induction false} Shorten(p: Program, bits: nat, start: Config, path: seq<nat>) returns (short: seq<nat>)
    requires start.block < |p| && NoDrift(p, bits, start) && Follow(p, bits, start, path).Some?
    ensures |short| <= |p| && Follow(p, bits, start, short) == Follow(p, bits, start, path)
    decreases |path|
  {
    hide Follow;
    if |path| <= |p| {
      short := path;
    } else {
      forall k | 0 <= k < |path|
        ensures path[k] < |p|
      {
        PrefixFollows(p, bits, start, path, k + 1);
      }
      Repeats(path, |p|);
      var i: nat, j: nat :| i < j < |path| && path[i] == path[j];
      var stem, back, rest := path[..i + 1], path[..j + 1], path[j + 1..];
      PrefixFollows(p, bits, start, path, i + 1);
      PrefixFollows(p, bits, start, path, j + 1);
      assert back[i] == back[|back| - 1] && back[..i + 1] == stem && back + rest == path;
      Shifted(p, bits, start, back, stem, rest);
      short := Shorten(p, bits, start, stem + rest);
    }
  }

  /** The largest change any block makes. */
  function MaxNet(p: seq<Block>, bits: nat): (m: nat)
    ensures forall b :: 0 <= b < |p| && Net(bits, p[b].insts).Some? ==> 0 - m <= Net(bits, p[b].insts).value <= m
  {
    if p == [] then 0
    else
      var m, last := MaxNet(p[..|p| - 1], bits), Net(bits, p[|p| - 1].insts);
      m + if last.None? then 0 else if last.value < 0 then -last.value else last.value
  }

  lemma {:induction false} OffsetWithin(p: Program, bits: nat, start: Config, path: seq<nat>)
    requires start.block < |p| && Follow(p, bits, start, path).Some?
    ensures var o := Follow(p, bits, start, path).value.offset - start.offset;
            0 - |path| * MaxNet(p, bits) <= o <= |path| * MaxNet(p, bits)
    decreases |path|
  {
    hide MaxNet, Net;
    if |path| > 1 {
      var front := path[..|path| - 1];
      OffsetWithin(p, bits, start, front);
      OneMore(|path|, MaxNet(p, bits));
    }
  }

  lemma NoDriftFinite(p: Program, bits: nat, start: Config)
    requires start.block < |p| && NoDrift(p, bits, start)
    ensures FinitelyMany(p, bits, start)
  {
    hide Follow, MaxNet, NoDrift;
    var reach := |p| * MaxNet(p, bits);
    var all := set b, o | 0 <= b < |p| && start.offset - reach <= o <= start.offset + reach :: Config(b, o);
    forall c | Reachable(p, bits, start, c)
      ensures c in all
    {
      var path :| Follow(p, bits, start, path) == Some(c);
      var short := Shorten(p, bits, start, path);
      OffsetWithin(p, bits, start, short);
      Scaled(|short|, |p|, MaxNet(p, bits));
    }
    assert Covers(p, bits, start, all);
  }

  lemma Scaled(a: nat, b: nat, m: nat)
    requires a <= b
    ensures a * m <= b * m
  {
  }

  /** The loop ends if and only if some path meets an untold adjustment or no path comes back to a
      block with another offset; and it gives up, reporting nothing, if and only if the former. */
  lemma EndsIff(p: Program, bits: nat, start: Config)
    requires start.block < |p|
    ensures (exists n: nat :: Ended(After(p, bits, Begin(start.block, start.offset), n)))
            <==> MeetsUntold(p, bits, start) || NoDrift(p, bits, start)
    ensures forall n: nat :: Ended(After(p, bits, Begin(start.block, start.offset), n)) ==>
              var s := After(p, bits, Begin(start.block, start.offset), n);
              (s.skipped <==> MeetsUntold(p, bits, start)) && (s.skipped ==> s.errors == [])
  {
    hide After, Stuck, Follow, Unbalanced, Out, NoDrift;
    var s := Begin(start.block, start.offset);
    BeginInv(p, bits, start);
    forall n: nat | Ended(After(p, bits, s, n))
      ensures var r := After(p, bits, s, n);
              && (r.skipped <==> MeetsUntold(p, bits, start)) && (r.skipped ==> r.errors == [])
              && (MeetsUntold(p, bits, start) || NoDrift(p, bits, start))
    {
      AfterSound(p, bits, start, s, n);
      WhenEnded(p, bits, start, n);
      if !After(p, bits, s, n).skipped {
        assert Covers(p, bits, start, After(p, bits, s, n).visited);
        FiniteNoDrift(p, bits, start);
      }
    }
    if MeetsUntold(p, bits, start) {
      var c: Config :| Reachable(p, bits, start, c) && c.block < |p| && Stuck(p, bits, c);
      var path :| Follow(p, bits, start, path) == Some(c);
      var n := ReachedIsVisited(p, bits, start, path);
      AfterSound(p, bits, start, s, n);
      assert Ended(After(p, bits, s, n));
    } else if NoDrift(p, bits, start) {
      NoDriftFinite(p, bits, start);
      var all: set<Config> :| Covers(p, bits, start, all);
      var n := FiniteEnds(p, bits, start, s, all);
    }
  }

  /** One block that pushes a word and goes back to itself. */
  function PushLoop(): Program {
    [Block([Inst(Push, 0, false, None)], [0])]
  }

  lemma PushLoopNet()
    ensures |PushLoop()| == 1 && Net(64, PushLoop()[0].insts) == Some(-8)
    ensures forall c: Config :: c.block == 0 ==>
              !Stuck(PushLoop(), 64, c) && Onward(PushLoop(), 64, c) == [0] && Out(PushLoop(), 64, c) == c.offset - 8
  {
    var insts := PushLoop()[0].insts;
    assert Net(64, insts[..0]) == Some(0);
    NetStep(64, insts, 0);
    assert insts[..1] == insts;
  }

  /** It keeps the search going for ever. */
  lemma PushesForever(n: nat)
    ensures |PushLoop()| == 1 && !Ended(After(PushLoop(), 64, Begin(0, 0), n))
  {
    PushLoopNet();
    hide Net, Stuck, Onward, Out, PushLoop, After;
    var p, start := PushLoop(), Config(0, 0);
    assert Follow(p, 64, start, [0]) == Some(start);
    FollowStep(p, 64, start, [0], 0);
    var path := [0] + [0];
    assert path[..1] == [0];
    assert !NoDrift(p, 64, start) by { assert path[0] == path[|path| - 1]; }
    hide NoDrift, Follow;
    EndsIff(p, 64, start);
  }

  /** The return itself is counted: a `ret` is reported exactly when the instructions before it do
      not leave the stack one word, and the operand of the `ret`, below level. */
  lemma ReturnIsCounted(p: Program, bits: nat, c: Config)
    requires c.block < |p| && !Stuck(p, bits, c)
    requires var insts := p[c.block].insts; insts != [] && insts[|insts| - 1].op == Ret
    ensures var insts := p[c.block].insts;
            && Net(bits, insts[..|insts| - 1]).Some?
            && (Unbalanced(p, bits, c) <==>
                  c.offset + Net(bits, insts[..|insts| - 1]).value
                  != -((if bits == 64 then 8 else 4) + insts[|insts| - 1].imm))
  {
    var insts := p[c.block].insts;
    assert insts[..|insts|] == insts;
    NetStep(bits, insts, |insts| - 1);
  }

  /** So a function that leaves the stack as it found it and returns, by a `ret` with operand 0, is
      reported. */
  lemma LevelFunctionReported(n: nat)
    requires n >= 1
    ensures var p: Program := [Block([Inst(Ret, 0, false, None)], [])];
            var s := After(p, 64, Begin(0, 0), n); Ended(s) && s.errors == [Report([0], 8)]
  {
    var p: Program := [Block([Inst(Ret, 0, false, None)], [])];
    assert Net(64, p[0].insts[..0]) == Some(0);
    NetStep(64, p[0].insts, 0);
    assert p[0].insts[..1] == p[0].insts;
  }
}
