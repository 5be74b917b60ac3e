/** What a block does to the stack, by counting its instructions. */
module StackNet {
  import opened Capability
  import opened StackCheck

  function Word(bits: nat): int {
    if bits == 64 then 8 else 4
  }

  /** How many of the instructions are of a kind. */
  function Count(insts: seq<Inst>, op: Mnemonic): (n: nat)
    ensures n <= |insts|
  {
    if insts == [] then 0
    else Count(insts[..|insts| - 1], op) + if insts[|insts| - 1].op == op then 1 else 0
  }

  /** What the operands of the returns add up to. */
  function Returned(insts: seq<Inst>): int {
    if insts == [] then 0
    else Returned(insts[..|insts| - 1]) + if insts[|insts| - 1].op == Ret then insts[|insts| - 1].imm else 0
  }

  /** A stack-pointer adjustment whose size is not known. */
  predicate Untold(i: Inst) {
    (i.op == Add || i.op == Sub) && i.dynamic && i.fixed.None?
  }

  /** The adjustments: an annotated `sub` lowers, an annotated `add` raises by the annotated size; the
      others count for their immediate operand. */
  function Adjusted(insts: seq<Inst>): int {
    if insts == [] then 0
    else
      var i := insts[|insts| - 1];
      Adjusted(insts[..|insts| - 1])
      + if i.op != Add && i.op != Sub then 0
        else if !i.dynamic then i.imm
        else if i.fixed.None? then 0
        else if i.op == Sub then 0 - i.fixed.value
        else i.fixed.value
  }

  /** The words taken off the stack less those put on it. */
  function Words(insts: seq<Inst>): int {
    Count(insts, Pop) + Count(insts, Ret) + Count(insts, Leave) - Count(insts, Push) - Count(insts, Call)
  }

  /** The fixed frames of the interrupt and system returns. */
  function Frames(insts: seq<Inst>): int {
    24 * Count(insts, Iretq) + 8 * (Count(insts, Sysret) + Count(insts, Sysretq))
  }

  function Counted(bits: nat, insts: seq<Inst>): int {
    Word(bits) * Words(insts) + Frames(insts) + Returned(insts) + Adjusted(insts)
  }

  lemma WordsStep(insts: seq<Inst>)
    requires insts != []
    ensures var op := insts[|insts| - 1].op;
            Words(insts) == Words(insts[..|insts| - 1])
                            + (if op in {Pop, Ret, Leave} then 1 else if op in {Push, Call} then -1 else 0)
  {
  }

  lemma FramesStep(insts: seq<Inst>)
    requires insts != []
    ensures var op := insts[|insts| - 1].op;
            Frames(insts) == Frames(insts[..|insts| - 1]) + (if op == Iretq then 24 else if op in {Sysret, Sysretq} then 8 else 0)
  {
  }

  lemma CountedStep(bits: nat, insts: seq<Inst>)
    requires insts != [] && !Untold(insts[|insts| - 1])
    ensures Effect(bits, insts[|insts| - 1]) == Some(Counted(bits, insts) - Counted(bits, insts[..|insts| - 1]))
  {
    WordsStep(insts);
    FramesStep(insts);
    hide Words, Frames;
    if bits == 64 { assert Word(bits) == 8; } else { assert Word(bits) == 4; }
  }

  /** The net effect of a block is known exactly when every adjustment in it is, and is then what
      counting gives: one word up for each `pop`, `ret` and `leave`, one down for each `push` and
      `call`, the fixed frames of the interrupt and system returns, and the operands. */
  lemma {:induction false} NetCounts(bits: nat, insts: seq<Inst>)
    ensures Net(bits, insts) == if exists k :: 0 <= k < |insts| && Untold(insts[k]) then None else Some(Counted(bits, insts))
    decreases |insts|
  {
    if insts == [] {
      assert Words(insts) == 0;
    } else {
      hide Counted, Untold;
      var front, last := insts[..|insts| - 1], insts[|insts| - 1];
      NetCounts(bits, front);
      assert forall k :: 0 <= k < |front| ==> front[k] == insts[k];
      if Untold(last) {
        UntoldStuck(bits, last);
        assert Untold(insts[|insts| - 1]);
      } else {
        CountedStep(bits, insts);
        hide Effect;
        if k :| 0 <= k < |insts| && Untold(insts[k]) { assert Untold(front[k]); }
      }
    }
  }

  lemma UntoldStuck(bits: nat, i: Inst)
    ensures Untold(i) <==> Effect(bits, i).None?
  {
  }

  // ---------------------------------------------------------------- matched pairs

  /** One block after another. */
  lemma {:induction false} NetConcat(bits: nat, a: seq<Inst>, b: seq<Inst>)
    ensures Net(bits, a + b) ==
            match (Net(bits, a), Net(bits, b))
            case (Some(x), Some(y)) => Some(x + y)
            case _ => None
    decreases |b|
  {
    hide Effect;
    if b == [] {
      assert a + b == a;
    } else {
      var front := b[..|b| - 1];
      assert (a + b)[..|a + b| - 1] == a + front;
      NetConcat(bits, a, front);
    }
  }

  /** Two instructions that undo each other, such as a `push` and a `pop`, or a `call` and a `ret`
      without operand. */
  predicate Matched(i: Inst, j: Inst) {
    || (i.op == Push && j.op == Pop)
    || (i.op == Call && j.op == Ret && j.imm == 0)
    || (i.op == Sub && j.op == Add && i.dynamic && j.dynamic && i.fixed.Some? && i.fixed == j.fixed)
  }

  lemma MatchedNet(bits: nat, i: Inst, j: Inst)
    requires Matched(i, j)
    ensures Net(bits, [i, j]) == Some(0)
  {
    var both := [i, j];
    assert both[..1] == [i] && [i][..0] == [];
    assert Net(bits, [i]) == Effect(bits, i);
  }

  /** Putting a matched pair anywhere into a block, around whatever is level, changes nothing. */
  lemma MatchedPair(bits: nat, a: seq<Inst>, i: Inst, inner: seq<Inst>, j: Inst, b: seq<Inst>)
    requires Matched(i, j) && Net(bits, inner) == Some(0)
    ensures Net(bits, a + [i] + inner + [j] + b) == Net(bits, a + b)
  {
    hide Effect;
    MatchedNet(bits, i, j);
    assert [i] + [j] == [i, j];
    hide Net;
    NetConcat(bits, [i], [j]);
    NetConcat(bits, a, b);
    NetConcat(bits, a, [i]);
    NetConcat(bits, a + [i], inner);
    NetConcat(bits, a + [i] + inner, [j]);
    NetConcat(bits, a + [i] + inner + [j], b);
  }

  // ---------------------------------------------------------------- returns

  /** The stack a return takes with it. */
  function Frame(bits: nat, i: Inst): int {
    match i.op
    case Ret => Word(bits) + i.imm
    case Iretq => 24
    case Sysret => 8
    case Sysretq => 8
    case _ => 0
  }

  /** For every kind of return, an `iret` included: a block that ends with it is reported exactly when
      what comes before does not leave the stack the size of its frame below level. */
  lemma EveryReturnCounted(p: Program, bits: nat, c: Config)
    requires c.block < |p| && !Stuck(p, bits, c)
    requires var insts := p[c.block].insts; insts != [] && insts[|insts| - 1].op in {Ret, Iret, Iretq, Sysret, Sysretq}
    ensures var insts := p[c.block].insts;
            && Net(bits, insts[..|insts| - 1]).Some?
            && (Unbalanced(p, bits, c) <==>
                  c.offset + Net(bits, insts[..|insts| - 1]).value + Frame(bits, insts[|insts| - 1]) != 0)
  {
    var insts := p[c.block].insts;
    assert insts[..|insts|] == insts;
    NetStep(bits, insts, |insts| - 1);
  }
}
