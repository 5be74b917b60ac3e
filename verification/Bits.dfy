/** Masks and powers of two on natural numbers. */
module Bits {

  function Pow2(k: nat): (p: nat)
    ensures p >= 1
  {
    if k == 0 then 1 else 2 * Pow2(k - 1)
  }

  /** Bitwise and of two unsigned numbers. */
  function BitAnd(a: nat, b: nat): nat {
    if a == 0 || b == 0 then 0
    else 2 * BitAnd(a / 2, b / 2) + (if a % 2 == 1 && b % 2 == 1 then 1 else 0)
  }

  /** `x >> k` */
  function ShiftRight(x: nat, k: nat): nat
    decreases k
  {
    if k == 0 then x else ShiftRight(x, k - 1) / 2
  }

  /** `x << k` */
  function ShiftLeft(x: nat, k: nat): nat
    decreases k
  {
    if k == 0 then x else 2 * ShiftLeft(x, k - 1)
  }

  /** `low` in the bottom `k` bits, `high` above them. */
  function Pack(low: nat, k: nat, high: nat): nat {
    low + ShiftLeft(high, k)
  }

  ghost predicate IsPow2(n: nat) {
    exists k: nat :: Pow2(k) == n
  }

  lemma MaskHalf(x: nat, p: nat)
    requires p >= 1
    ensures BitAnd(x, 2 * p - 1) == 2 * BitAnd(x / 2, p - 1) + x % 2
  {
    assert (2 * p - 1) / 2 == p - 1 && (2 * p - 1) % 2 == 1;
  }

  /** Masking with a power of two less one is the remainder. */
  lemma {:induction false} MaskIsMod(x: nat, k: nat)
    ensures BitAnd(x, Pow2(k) - 1) == x % Pow2(k)
    decreases k
  {
    if k == 0 {
      assert BitAnd(x, 0) == 0;
    } else {
      var p := Pow2(k - 1);
      assert Pow2(k) == 2 * p;
      hide BitAnd, Pow2;
      MaskIsMod(x / 2, k - 1);
      calc {
        BitAnd(x, 2 * p - 1);
      ==  { MaskHalf(x, p); }
        2 * ((x / 2) % p) + x % 2;
      ==  { HalfMod(x, p); }
        x % (2 * p);
      }
    }
  }

  lemma HalfMod(x: nat, p: nat)
    requires p >= 1
    ensures x % (2 * p) == 2 * ((x / 2) % p) + x % 2
  {
    var q, r := (x / 2) / p, (x / 2) % p;
    assert x / 2 == q * p + r;
    assert x == 2 * (x / 2) + x % 2;
    assert x == q * (2 * p) + (2 * r + x % 2);
    DivModUnique(x, 2 * p, q, 2 * r + x % 2);
  }

  lemma AtLeastOnce(a: nat, b: nat, d: nat)
    requires a < b
    ensures a * d + d <= b * d
  {
    assert (a + 1) * d <= b * d;
  }

  lemma DivModUnique(x: nat, d: nat, q: nat, r: nat)
    requires r < d && x == q * d + r
    ensures x / d == q && x % d == r
  {
    var q', r' := x / d, x % d;
    assert x == q' * d + r';
    if q' > q { AtLeastOnce(q, q', d); } else if q' < q { AtLeastOnce(q', q, d); }
  }

  lemma {:induction false} ShiftRightIs(x: nat, k: nat)
    ensures ShiftRight(x, k) == x / Pow2(k)
    decreases k
  {
    if k == 0 {
      assert Pow2(0) == 1;
    } else {
      var a := Pow2(k - 1);
      assert Pow2(k) == 2 * a;
      hide Pow2;
      ShiftRightIs(x, k - 1);
      DivTwice(x, a);
    }
  }

  lemma DivTwice(x: nat, a: nat)
    requires a >= 1
    ensures x / a / 2 == x / (2 * a)
  {
    var y := x / a;
    var h, b, r := y / 2, y % 2, x % a;
    assert x == y * a + r && y == 2 * h + b;
    assert x == h * (2 * a) + (b * a + r) by { assert (2 * h + b) * a == h * (2 * a) + b * a; }
    DivModUnique(x, 2 * a, h, b * a + r);
  }

  lemma {:induction false} ShiftLeftIs(x: nat, k: nat)
    ensures ShiftLeft(x, k) == Pow2(k) * x
    decreases k
  {
    if k > 0 { ShiftLeftIs(x, k - 1); }
  }

  lemma {:induction false} Pow2Add(a: nat, b: nat)
    ensures Pow2(a + b) == Pow2(a) * Pow2(b)
    decreases a
  {
    if a > 0 { Pow2Add(a - 1, b); }
  }

  lemma {:induction false} Pow2Grows(a: nat, b: nat)
    requires a <= b
    ensures Pow2(a) <= Pow2(b)
    decreases b
  {
    if a < b { Pow2Grows(a, b - 1); }
  }

  /** The low digits of a number in a mixed base are its low digit and the low digits of the rest. */
  lemma LowDigits(x: nat, a: nat, b: nat)
    requires a >= 1 && b >= 1
    ensures a * b >= 1 && x % (a * b) == a * ((x / a) % b) + x % a
  {
    var y := x / a;
    Nest(x, a, b, y, x % a, y / b, y % b);
  }

  lemma Nest(x: nat, a: nat, b: nat, y: nat, l: nat, q: nat, r: nat)
    requires l < a && r < b && x == y * a + l && y == q * b + r
    ensures a * b >= 1 && x % (a * b) == a * r + l
  {
    Regroup(q, a, b, r);
    AtLeastOnce(r, b, a);
    AtLeastOnce(0, a, b);
    DivModUnique(x, a * b, q, a * r + l);
  }

  lemma Regroup(q: nat, a: nat, b: nat, r: nat)
    ensures (q * b + r) * a == q * (a * b) + a * r
  {
    assert q * (a * b) == (q * b) * a;
  }

  lemma PairUnique(a: nat, d: nat, e: nat, d': nat, e': nat)
    requires d < a && d' < a && a * e + d == a * e' + d'
    ensures d == d' && e == e'
  {
    if e < e' { AtLeastOnce(e, e', a); } else if e' < e { AtLeastOnce(e', e, a); }
  }

  lemma DigitsIff(x: nat, a: nat, b: nat, d: nat, e: nat)
    requires d < a && e < b
    ensures a * b >= 1 && d + a * e < a * b
    ensures x % (a * b) == d + a * e <==> x % a == d && x / a % b == e
  {
    LowDigits(x, a, b);
    AtLeastOnce(e, b, a);
    var low, high := x % a, x / a % b;
    if a * high + low == d + a * e { PairUnique(a, d, e, low, high); }
  }

  lemma ThreeDigitsIff(x: nat, a: nat, b: nat, c: nat, d: nat, e: nat, f: nat)
    requires d < a && e < b && f < c
    ensures a * (b * c) >= 1 && d + a * (e + b * f) < a * (b * c)
    ensures x % (a * (b * c)) == d + a * (e + b * f)
            <==> x % a == d && x / a % b == e && x / a / b % c == f
  {
    DigitsIff(x / a, b, c, e, f);
    DigitsIff(x, a, b * c, d, e + b * f);
  }

  lemma PackIs(guard: nat, guardBits: nat, index: nat, slotBits: nat, code: nat)
    ensures Pack(guard, guardBits, Pack(index, slotBits, code)) == guard + Pow2(guardBits) * (index + Pow2(slotBits) * code)
  {
    hide ShiftLeft, Pow2;
    ShiftLeftIs(code, slotBits);
    ShiftLeftIs(index + ShiftLeft(code, slotBits), guardBits);
  }

  /** Three packed fields are read back one by one with masks and shifts. */
  lemma PackedIff(x: nat, i: nat, j: nat, k: nat, d: nat, e: nat, f: nat)
    requires d < Pow2(i) && e < Pow2(j) && f < Pow2(k)
    ensures Pack(d, i, Pack(e, j, f)) < Pow2(i + (j + k))
    ensures x % Pow2(i + (j + k)) == Pack(d, i, Pack(e, j, f))
            <==> x % Pow2(i) == d && ShiftRight(x, i) % Pow2(j) == e && ShiftRight(ShiftRight(x, i), j) % Pow2(k) == f
  {
    hide Pow2, ShiftRight, Pack;
    Pow2Add(i, j + k);
    Pow2Add(j, k);
    ShiftRightIs(x, i);
    ShiftRightIs(ShiftRight(x, i), j);
    PackIs(d, i, e, j, f);
    ThreeDigitsIff(x, Pow2(i), Pow2(j), Pow2(k), d, e, f);
  }

  lemma ModIncrement(n: nat, l: nat)
    requires l >= 1
    ensures n % l < l
    ensures (n + 1) % l == if n % l + 1 == l then 0 else n % l + 1
  {
    var q, r := n / l, n % l;
    assert n == q * l + r;
    if r + 1 == l {
      assert n + 1 == (q + 1) * l + 0 by { assert (q + 1) * l == q * l + l; }
      DivModUnique(n + 1, l, q + 1, 0);
    } else {
      DivModUnique(n + 1, l, q, r + 1);
    }
  }

  /** The lowest set bit of a number: the largest power of two that divides it. */
  function LowBit(n: nat): (l: nat)
    requires n >= 1
    ensures 1 <= l <= n
  {
    if n % 2 == 1 then 1 else 2 * LowBit(n / 2)
  }

  /** Counting up under the mask `n - 1` runs through the numbers below the lowest bit of `n`. */
  lemma {:induction false} CountUnderMask(h: nat, n: nat)
    requires n >= 1 && h < LowBit(n)
    ensures BitAnd(h + 1, n - 1) == if h + 1 == LowBit(n) then 0 else h + 1
    decreases n
  {
    hide BitAnd;
    ZeroAndOne(n - 1);
    if n % 2 == 0 {
      var half, e := n / 2, h / 2;
      assert LowBit(n) == 2 * LowBit(half);
      hide LowBit;
      MaskHalf(h + 1, half);
      if h == 2 * e + 1 {
        assert (h + 1) / 2 == e + 1 && (h + 1) % 2 == 0;
        CountUnderMask(e, half);
      } else {
        assert (h + 1) / 2 == e && (h + 1) % 2 == 1;
        if e >= 1 { CountUnderMask(e - 1, half); } else { ZeroAndOne(half - 1); }
      }
    }
  }

  lemma ZeroAndOne(m: nat)
    ensures BitAnd(0, m) == 0 && BitAnd(1, m) == m % 2
  {
    assert BitAnd(0, m / 2) == 0;
  }

  /** The count covers all of `n` just when `n` is a power of two. */
  lemma {:induction false} LowBitIsAllIff(n: nat)
    requires n >= 1
    ensures LowBit(n) == n <==> IsPow2(n)
  {
    if n == 1 {
      assert Pow2(0) == 1;
    } else if n % 2 == 1 {
      assert forall k: nat :: Pow2(k) == n ==> k == 0;
    } else {
      LowBitIsAllIff(n / 2);
      if k: nat :| Pow2(k) == n / 2 { assert Pow2(k + 1) == n; }
      if k: nat :| Pow2(k) == n { assert k > 0 && Pow2(k - 1) == n / 2; }
    }
  }
}
