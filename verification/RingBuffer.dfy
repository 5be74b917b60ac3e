/** The lock-free ring buffer of one producer and one consumer.

    `lockfree_ringbuffer_push` and `lockfree_ringbuffer_pop` are broken into their single loads and
    stores; a run is any interleaving of those.  The size is arbitrary: the index mask makes the
    buffer use as many slots as the lowest set bit of the size, which is all of them just when the
    size is a power of two. */
module RingBuffer {
  import opened Bits
  import Capability

  /** Where a push stands: after loading the head, after finding room, after writing the slot. */
  datatype Producer<T> = Idle | Loaded(item: T, head: nat) | Ready(item: T, head: nat) | Written(item: T, head: nat)

  /** Where a pop stands: after loading the tail, after finding an item, after reading the slot. */
  datatype Consumer<T> = Resting | Looked(tail: nat) | Found(tail: nat) | Taken(tail: nat, item: T)

  /** The shared fields, the two threads, and the items pushed and popped so far. */
  datatype Ring<T> = Ring(head: nat, tail: nat, buffer: seq<T>, producer: Producer<T>, consumer: Consumer<T>,
                          pushed: seq<T>, popped: seq<T>)

  function Next(i: nat, size: nat): nat
    requires size >= 1
  {
    BitAnd(i + 1, size - 1)
  }

  /** The slots in use. */
  function Lap<T>(s: Ring<T>): (l: nat)
    requires |s.buffer| >= 1
    ensures 1 <= l <= |s.buffer|
  {
    LowBit(|s.buffer|)
  }

  datatype Move<T> = Produce(item: T) | Consume

  /** The indices a thread holds point into the buffer. */
  predicate InBounds<T>(s: Ring<T>) {
    && |s.buffer| >= 1
    && (s.producer.Ready? ==> s.producer.head < |s.buffer|)
    && (s.consumer.Found? ==> s.consumer.tail < |s.buffer|)
  }

  /** One load or store.  An idle producer starts to push `item`. */
  function ProducerStep<T>(s: Ring<T>, item: T): Ring<T>
    requires InBounds(s)
  {
    match s.producer
    case Idle => s.(producer := Loaded(item, s.head))
    case Loaded(x, h) =>
      if Next(h, |s.buffer|) == s.tail then s.(producer := Idle) else s.(producer := Ready(x, h))
    case Ready(x, h) => s.(buffer := s.buffer[h := x], producer := Written(x, h))
    case Written(x, h) => s.(head := Next(h, |s.buffer|), producer := Idle, pushed := s.pushed + [x])
  }

  function ConsumerStep<T>(s: Ring<T>): Ring<T>
    requires InBounds(s)
  {
    match s.consumer
    case Resting => s.(consumer := Looked(s.tail))
    case Looked(t) => if t == s.head then s.(consumer := Resting) else s.(consumer := Found(t))
    case Found(t) => s.(consumer := Taken(t, s.buffer[t]))
    case Taken(t, x) => s.(tail := Next(t, |s.buffer|), consumer := Resting, popped := s.popped + [x])
  }

  function Step<T>(s: Ring<T>, m: Move<T>): Ring<T>
    requires InBounds(s)
  {
    match m
    case Produce(item) => ProducerStep(s, item)
    case Consume => ConsumerStep(s)
  }

  // ---------------------------------------------------------------- the invariant

  /** The items pushed and not yet popped. */
  function Pending<T>(s: Ring<T>): nat
    requires |s.popped| <= |s.pushed|
  {
    |s.pushed| - |s.popped|
  }

  /** The counters are the numbers of finished operations, around the lap. */
  ghost predicate Counters<T>(s: Ring<T>)
    requires |s.buffer| >= 1
  {
    && s.head == |s.pushed| % Lap(s) && s.tail == |s.popped| % Lap(s)
    && |s.popped| <= |s.pushed| < |s.popped| + Lap(s)
  }

  /** What was popped is the front of what was pushed, and the rest lies in the buffer. */
  ghost predicate Queue<T>(s: Ring<T>)
    requires |s.buffer| >= 1
  {
    && s.popped <= s.pushed
    && forall k :: |s.popped| <= k < |s.pushed| ==> s.buffer[k % Lap(s)] == s.pushed[k]
  }

  ghost predicate ProducerFits<T>(s: Ring<T>)
    requires |s.buffer| >= 1 && |s.popped| <= |s.pushed|
  {
    && (!s.producer.Idle? ==> s.producer.head == s.head)
    && (s.producer.Ready? || s.producer.Written? ==> Pending(s) < Lap(s) - 1)
    && (s.producer.Written? ==> s.head < |s.buffer| && s.buffer[s.head] == s.producer.item)
  }

  ghost predicate ConsumerFits<T>(s: Ring<T>) {
    && (!s.consumer.Resting? ==> s.consumer.tail == s.tail)
    && (s.consumer.Found? || s.consumer.Taken? ==> |s.popped| < |s.pushed|)
    && (s.consumer.Taken? ==> s.consumer.item == s.pushed[|s.popped|])
  }

  ghost predicate Inv<T>(s: Ring<T>) {
    && |s.buffer| >= 1 && Counters(s) && Queue(s) && ProducerFits(s) && ConsumerFits(s)
  }

  /** Numbers less than a lap apart meet at one slot only when they are equal. */
  lemma SameSlot(i: nat, j: nat, l: nat)
    requires l >= 1 && i <= j < i + l && i % l == j % l
    ensures i == j
  {
    var a, b := i / l, j / l;
    assert i == a * l + i % l && j == b * l + j % l;
    if a < b { AtLeastOnce(a, b, l); }
  }

  /** The masked increment of a counter is the next number around the lap. */
  lemma NextCount<T>(s: Ring<T>, n: nat)
    requires |s.buffer| >= 1
    ensures n % Lap(s) < Lap(s) && Next(n % Lap(s), |s.buffer|) == (n + 1) % Lap(s)
  {
    hide BitAnd, LowBit;
    ModIncrement(n, Lap(s));
    CountUnderMask(n % Lap(s), |s.buffer|);
  }

  lemma InvInBounds<T>(s: Ring<T>)
    requires Inv(s)
    ensures InBounds(s) && s.head < Lap(s) && s.tail < Lap(s)
    ensures s.popped <= s.pushed && Pending(s) <= Lap(s) - 1
  {
    NextCount(s, |s.pushed|);
    NextCount(s, |s.popped|);
  }

  /** A push is refused exactly when the lap less one is pending; otherwise there is room. */
  lemma FullIff<T>(s: Ring<T>)
    requires Inv(s)
    ensures Next(s.head, |s.buffer|) == s.tail <==> Pending(s) == Lap(s) - 1
  {
    hide BitAnd, LowBit;
    var l := Lap(s);
    NextCount(s, |s.pushed|);
    if (|s.pushed| + 1) % l == |s.popped| % l && Pending(s) < l - 1 {
      SameSlot(|s.popped|, |s.pushed| + 1, l);
    }
    if Pending(s) == l - 1 {
      assert |s.pushed| + 1 == |s.popped| + l;
      AddLap(|s.popped|, l);
    }
  }

  lemma AddLap(n: nat, l: nat)
    requires l >= 1
    ensures (n + l) % l == n % l
  {
    var q, r := n / l, n % l;
    assert n + l == (q + 1) * l + r by { assert (q + 1) * l == q * l + l; }
    DivModUnique(n + l, l, q + 1, r);
  }

  /** A pop finds the buffer empty exactly when nothing is pending. */
  lemma EmptyIff<T>(s: Ring<T>)
    requires Inv(s)
    ensures s.tail == s.head <==> Pending(s) == 0
  {
    if s.tail == s.head { SameSlot(|s.popped|, |s.pushed|, Lap(s)); }
  }

  // ---------------------------------------------------------------- every step keeps it

  /** The slot about to be written is none that holds a pending item. */
  lemma WriteMisses<T>(s: Ring<T>, k: nat)
    requires Inv(s) && |s.popped| <= k < |s.pushed|
    ensures k % Lap(s) != s.head
  {
    if k % Lap(s) == s.head { SameSlot(k, |s.pushed|, Lap(s)); }
  }

  lemma ProducerKeeps<T>(s: Ring<T>, item: T)
    requires Inv(s) && InBounds(s)
    ensures Inv(ProducerStep(s, item))
  {
    hide Lap, Next;
    InvInBounds(s);
    var r := ProducerStep(s, item);
    SameLap(s, r);
    match s.producer
    case Idle =>
    case Loaded(_, _) => FullIff(s);
    case Ready(x, h) =>
      forall k | |s.popped| <= k < |s.pushed|
        ensures r.buffer[k % Lap(r)] == r.pushed[k]
      {
        ModIncrement(k, Lap(s));
        WriteMisses(s, k);
      }
    case Written(x, h) =>
      NextCount(s, |s.pushed|);
      forall k | |r.popped| <= k < |r.pushed|
        ensures k % Lap(r) < |r.buffer| && r.buffer[k % Lap(r)] == r.pushed[k]
      {
        ModIncrement(k, Lap(s));
      }
  }

  lemma SameLap<T>(s: Ring<T>, r: Ring<T>)
    requires |r.buffer| == |s.buffer| >= 1
    ensures Lap(r) == Lap(s)
  {
  }

  lemma ConsumerKeeps<T>(s: Ring<T>)
    requires Inv(s) && InBounds(s)
    ensures Inv(ConsumerStep(s))
  {
    hide Lap, Next;
    InvInBounds(s);
    var r := ConsumerStep(s);
    SameLap(s, r);
    match s.consumer
    case Resting =>
    case Looked(_) => EmptyIff(s);
    case Found(_) =>
    case Taken(_, _) => NextCount(s, |s.popped|);
  }

  lemma StepKeeps<T>(s: Ring<T>, m: Move<T>)
    requires Inv(s)
    ensures InBounds(s) && Inv(Step(s, m))
  {
    hide Inv, ProducerStep, ConsumerStep;
    InvInBounds(s);
    match m
    case Produce(item) => ProducerKeeps(s, item);
    case Consume => ConsumerKeeps(s);
  }

  // ---------------------------------------------------------------- every interleaving

  /** `lockfree_ringbuffer_init` on a buffer with whatever it holds. */
  function Init<T>(buffer: seq<T>): Ring<T> {
    Ring(0, 0, buffer, Idle, Resting, [], [])
  }

  lemma InitInv<T>(buffer: seq<T>)
    requires |buffer| >= 1
    ensures Inv(Init(buffer))
  {
    hide LowBit;
    DivModUnique(0, LowBit(|buffer|), 0, 0);
  }

  function Run<T>(s: Ring<T>, moves: seq<Move<T>>): (r: Ring<T>)
    requires Inv(s)
    ensures Inv(r) && |r.buffer| == |s.buffer|
    decreases |moves|
  {
    if moves == [] then s
    else
      StepKeeps(s, moves[0]);
      Run(Step(s, moves[0]), moves[1..])
  }

  /** Over every interleaving of single loads and stores, for every size: what was popped is a
      prefix of what was pushed, at most one less than the lowest bit of the size is pending, and
      the slot being written is never the slot being read. */
  lemma FirstInFirstOut<T>(buffer: seq<T>, moves: seq<Move<T>>)
    requires |buffer| >= 1
    ensures Inv(Init(buffer))
    ensures var s := Run(Init(buffer), moves);
            && s.popped <= s.pushed && Pending(s) <= LowBit(|buffer|) - 1
            && (s.producer.Ready? && s.consumer.Found? ==> s.producer.head != s.consumer.tail)
  {
    InitInv(buffer);
    var s := Run(Init(buffer), moves);
    if s.producer.Ready? && s.consumer.Found? { WriteMisses(s, |s.popped|); }
  }

  /** At every moment of every run a push is refused exactly when one less than the lap is pending,
      and a pop exactly when nothing is; that capacity is all slots but one just when the size is a
      power of two. */
  lemma RefusedIff<T>(buffer: seq<T>, moves: seq<Move<T>>)
    requires |buffer| >= 1 && Inv(Init(buffer))
    ensures var s := Run(Init(buffer), moves);
            && InBounds(s)
            && (s.producer.Loaded? ==>
                  (ProducerStep(s, s.producer.item).producer.Idle? <==> Pending(s) == LowBit(|buffer|) - 1))
            && (s.consumer.Looked? ==> (ConsumerStep(s).consumer.Resting? <==> Pending(s) == 0))
    ensures LowBit(|buffer|) - 1 == |buffer| - 1 <==> IsPow2(|buffer|)
  {
    hide Run, LowBit, Next;
    var s := Run(Init(buffer), moves);
    InvInBounds(s);
    FullIff(s);
    EmptyIff(s);
    LowBitIsAllIff(|buffer|);
  }

  // ---------------------------------------------------------------- in place

  /** The buffer in memory.  `pushed` and `popped` record the finished operations. */
  class Buffer<T(0)> {
    var head: nat
    var tail: nat
    const buffer: array<T>
    ghost var pushed: seq<T>
    ghost var popped: seq<T>

    /** The buffer between two calls, as a state of the protocol. */
    ghost function State(): Ring<T>
      reads this, buffer
    {
      Ring(head, tail, buffer[..], Idle, Resting, pushed, popped)
    }

    ghost predicate Valid()
      reads this, buffer
    {
      Inv(State())
    }

    /** The items in the buffer, oldest first. */
    ghost function Contents(): seq<T>
      requires Valid()
      reads this, buffer
    {
      pushed[|popped|..]
    }

    constructor (size: nat)
      requires size >= 1
      ensures Valid() && fresh(buffer) && buffer.Length == size && Contents() == []
    {
      head, tail := 0, 0;
      buffer := new T[size];
      pushed, popped := [], [];
      new;
      InitInv(buffer[..]);
    }

    method Push(item: T) returns (ok: bool)
      requires Valid()
      modifies this, buffer
      ensures Valid()
      ensures ok <==> |old(Contents())| < LowBit(buffer.Length) - 1
      ensures Contents() == if ok then old(Contents()) + [item] else old(Contents())
      ensures popped == old(popped)
    {
      hide Inv, Next, LowBit;
      ghost var s := State();
      var h := head;
      InvInBounds(s);
      FullIff(s);
      ghost var s1 := ProducerStep(s, item);
      ProducerKeeps(s, item);
      InvInBounds(s1);
      ProducerKeeps(s1, item);
      var next := Next(h, buffer.Length);
      if next == tail { return false; }
      ghost var s2 := ProducerStep(s1, item);
      InvInBounds(s2);
      ProducerKeeps(s2, item);
      buffer[h] := item;
      ghost var s3 := ProducerStep(s2, item);
      InvInBounds(s3);
      ProducerKeeps(s3, item);
      head, pushed := next, pushed + [item];
      assert State() == ProducerStep(s3, item);
      ok := true;
    }

    method Pop() returns (item: Capability.Option<T>)
      requires Valid()
      modifies this, buffer
      ensures Valid()
      ensures item.None? <==> old(Contents()) == []
      ensures item.None? ==> Contents() == old(Contents())
      ensures item.Some? ==> [item.value] + Contents() == old(Contents())
      ensures pushed == old(pushed)
    {
      hide Inv, Next;
      ghost var s := State();
      var t := tail;
      InvInBounds(s);
      EmptyIff(s);
      if t == head { return Capability.None; }
      ghost var s1 := ConsumerStep(s);
      ConsumerKeeps(s);
      InvInBounds(s1);
      ConsumerKeeps(s1);
      ghost var s2 := ConsumerStep(s1);
      InvInBounds(s2);
      ConsumerKeeps(s2);
      var x := buffer[t];
      ghost var s3 := ConsumerStep(s2);
      InvInBounds(s3);
      ConsumerKeeps(s3);
      tail, popped := Next(t, buffer.Length), popped + [x];
      assert State() == ConsumerStep(s3);
      InvInBounds(State());
      item := Capability.Some(x);
    }
  }
}
