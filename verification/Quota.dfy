/** Domain quotas: checking, consuming, releasing and delegating them. */
module Quota {
  import opened Capability
  import Bits

  /** One resource of a domain: what it may use, what it passed on, what it uses. */
  datatype Purse = Purse(max: nat, delegated: nat, used: nat) {
    /** Nothing has been promised twice. */
    predicate Solvent() {
      delegated + used <= max
    }

    function Kept(): int {
      max - delegated
    }
  }

  /** `mem` is kept in 64-bit words, the other counters in 32-bit words, `cpuTime` in 64. */
  datatype Account = Account(mem: Purse, threads: Purse, maxCaps: nat, caps: nat, cpuPercent: nat, cpuTime: nat,
                             parent: DomainId)

  datatype Kind = MemoryQuota | ThreadQuota | CapQuota | CpuQuota

  datatype Level = Fine | Warning | Critical | Exceeded

  datatype Answer = Done | BadDomain | QuotaExceeded

  type Accounts = s: seq<Account> | |s| == MAX_DOMAINS witness seq(MAX_DOMAINS, i => NoAccount())

  function NoAccount(): Account {
    Account(Purse(0, 0, 0), Purse(0, 0, 0), 0, 0, 0, 0, 0)
  }

  /** What `domain_quota_check` compares: the amount used and the amount allowed. */
  function Used(a: Account, kind: Kind): nat {
    match kind
    case MemoryQuota => a.mem.used
    case ThreadQuota => a.threads.used
    case CapQuota => a.caps
    case CpuQuota => a.cpuTime / 1000000
  }

  function Allowed(a: Account, kind: Kind): nat {
    match kind
    case MemoryQuota => a.mem.max
    case ThreadQuota => a.threads.max
    case CapQuota => a.maxCaps
    case CpuQuota => a.cpuPercent * 10
  }

  function Available(a: Account, kind: Kind): nat {
    if Allowed(a, kind) > Used(a, kind) then Allowed(a, kind) - Used(a, kind) else 0
  }

  /** The share in use, as the code computes it in 64 and then 32 bits. */
  function Percent(used: nat, max: nat): nat {
    used * 100 % U64 / (if max > 0 then max else 1) % U32
  }

  /** `domain_quota_check` */
  function Check(s: Accounts, d: DomainId, kind: Kind, amount: nat): Level {
    if d >= MAX_DOMAINS || amount > Available(s[d], kind) then Exceeded
    else
      var percent := Percent(Used(s[d], kind), Allowed(s[d], kind));
      if percent >= 95 then Critical else if percent >= 80 then Warning else Fine
  }

  /** `domain_quota_consume`: threads and capabilities go up by one, whatever the amount. */
  function Consume(s: Accounts, d: DomainId, kind: Kind, amount: nat): (Answer, Accounts) {
    if d >= MAX_DOMAINS then (BadDomain, s)
    else if Check(s, d, kind, amount) == Exceeded then (QuotaExceeded, s)
    else
      var a := s[d];
      var b :=
        match kind
        case MemoryQuota => a.(mem := a.mem.(used := (a.mem.used + amount) % U64))
        case ThreadQuota => a.(threads := a.threads.(used := (a.threads.used + 1) % U32))
        case CapQuota => a.(caps := (a.caps + 1) % U32)
        case CpuQuota => a.(cpuTime := (a.cpuTime + amount) % U64);
      (Done, s[d := b])
  }

  function Less(used: nat, amount: nat): nat {
    if used >= amount then used - amount else 0
  }

  /** `domain_quota_release` */
  function GiveBack(s: Accounts, d: DomainId, kind: Kind, amount: nat): Accounts {
    if d >= MAX_DOMAINS then s
    else
      var a := s[d];
      match kind
      case MemoryQuota => s[d := a.(mem := a.mem.(used := Less(a.mem.used, amount)))]
      case ThreadQuota => s[d := a.(threads := a.threads.(used := Less(a.threads.used, 1)))]
      case CapQuota => s[d := a.(caps := Less(a.caps, 1))]
      case CpuQuota => s
  }

  /** What is left to delegate, by unsigned subtraction in words of the given size. */
  function Room(p: Purse, word: nat): int
    requires word > 0
  {
    (p.max - p.delegated - p.used) % word
  }

  function Given(p: Purse, amount: nat, word: nat): Purse
    requires word > 0
  {
    p.(delegated := (p.delegated + amount) % word)
  }

  /** `domain_quota_delegate` */
  function Delegate(s: Accounts, parent: DomainId, child: DomainId, mem: nat, threads: nat): (Answer, Accounts) {
    if parent >= MAX_DOMAINS || child >= MAX_DOMAINS then (BadDomain, s)
    else if mem > Room(s[parent].mem, U64) || threads > Room(s[parent].threads, U32) then (QuotaExceeded, s)
    else
      var p := s[parent];
      var t := s[parent := p.(mem := Given(p.mem, mem, U64), threads := Given(p.threads, threads, U32))];
      var c := t[child];
      (Done, t[child := c.(mem := c.mem.(max := mem), threads := c.threads.(max := threads), parent := parent)])
  }

  // ---------------------------------------------------------------- in place

  class Domains {
    const accounts: array<Account>

    constructor ()
      ensures fresh(accounts) && accounts.Length == MAX_DOMAINS
      ensures forall i :: 0 <= i < MAX_DOMAINS ==> accounts[i] == NoAccount()
    {
      accounts := new Account[MAX_DOMAINS](i => NoAccount());
    }

    method CheckQuota(d: DomainId, kind: Kind, amount: nat) returns (level: Level, available: nat)
      requires accounts.Length == MAX_DOMAINS
      ensures level == Check(accounts[..], d, kind, amount)
      ensures d < MAX_DOMAINS ==> available == Available(accounts[d], kind)
    {
      hide Percent;
      if d >= MAX_DOMAINS { return Exceeded, 0; }
      var used, max := Used(accounts[d], kind), Allowed(accounts[d], kind);
      available := if max > used then max - used else 0;
      if amount > available { return Exceeded, available; }
      var percent := Percent(used, max);
      if percent >= 95 { return Critical, available; }
      if percent >= 80 { return Warning, available; }
      return Fine, available;
    }

    method ConsumeQuota(d: DomainId, kind: Kind, amount: nat) returns (answer: Answer)
      requires accounts.Length == MAX_DOMAINS
      modifies accounts
      ensures (answer, accounts[..]) == Consume(old(accounts[..]), d, kind, amount)
    {
      hide Check;
      if d >= MAX_DOMAINS { return BadDomain; }
      var level, _ := CheckQuota(d, kind, amount);
      if level == Exceeded { return QuotaExceeded; }
      var a := accounts[d];
      match kind {
        case MemoryQuota => accounts[d] := a.(mem := a.mem.(used := (a.mem.used + amount) % U64));
        case ThreadQuota => accounts[d] := a.(threads := a.threads.(used := (a.threads.used + 1) % U32));
        case CapQuota => accounts[d] := a.(caps := (a.caps + 1) % U32);
        case CpuQuota => accounts[d] := a.(cpuTime := (a.cpuTime + amount) % U64);
      }
      return Done;
    }

    method ReleaseQuota(d: DomainId, kind: Kind, amount: nat)
      requires accounts.Length == MAX_DOMAINS
      modifies accounts
      ensures accounts[..] == GiveBack(old(accounts[..]), d, kind, amount)
    {
      if d >= MAX_DOMAINS { return; }
      var a := accounts[d];
      match kind {
        case MemoryQuota => accounts[d] := a.(mem := a.mem.(used := Less(a.mem.used, amount)));
        case ThreadQuota => accounts[d] := a.(threads := a.threads.(used := Less(a.threads.used, 1)));
        case CapQuota => accounts[d] := a.(caps := Less(a.caps, 1));
        case CpuQuota =>
      }
    }

    method DelegateQuota(parent: DomainId, child: DomainId, mem: nat, threads: nat) returns (answer: Answer)
      requires accounts.Length == MAX_DOMAINS
      modifies accounts
      ensures (answer, accounts[..]) == Delegate(old(accounts[..]), parent, child, mem, threads)
    {
      hide Room, Given;
      if parent >= MAX_DOMAINS || child >= MAX_DOMAINS { return BadDomain; }
      var p := accounts[parent];
      if mem > Room(p.mem, U64) || threads > Room(p.threads, U32) { return QuotaExceeded; }
      accounts[parent] := p.(mem := Given(p.mem, mem, U64), threads := Given(p.threads, threads, U32));
      var c := accounts[child];
      accounts[child] := c.(mem := c.mem.(max := mem), threads := c.threads.(max := threads), parent := parent);
      return Done;
    }
  }

  // ---------------------------------------------------------------- checking

  /** The quota the share in use is taken of; a quota of zero counts as one. */
  function Whole(max: nat): nat {
    if max > 0 then max else 1
  }

  /** The percentage survives its 64-bit product and its 32-bit result. */
  predicate PercentFits(used: nat, max: nat) {
    used * 100 < U64 && used * 100 / Whole(max) < U32
  }

  /** An amount is refused exactly when there is some and it goes beyond the quota; otherwise the
      levels are fractions of the quota in use, while the percentage fits its words. */
  lemma CheckLevels(s: Accounts, d: DomainId, kind: Kind, amount: nat)
    requires d < MAX_DOMAINS
    ensures var used, max, level := Used(s[d], kind), Allowed(s[d], kind), Check(s, d, kind, amount);
            && (level == Exceeded <==> amount > 0 && used + amount > max)
            && (level != Exceeded && PercentFits(used, max) ==>
                  && (level == Critical <==> 20 * used >= 19 * Whole(max))
                  && (level == Warning <==> 5 * used >= 4 * Whole(max) && 20 * used < 19 * Whole(max)))
  {
    var used, max := Used(s[d], kind), Allowed(s[d], kind);
    hide Used, Allowed;
    if PercentFits(used, max) { PercentIs(used, max); }
    hide Percent;
    AtLeastIff(used * 100, Whole(max), 95);
    AtLeastIff(used * 100, Whole(max), 80);
  }

  /** What is measured: bytes, threads and capabilities as counted, processor time in whole
      milliseconds against ten for each percent. */
  lemma MeasuredIn(a: Account)
    ensures Used(a, MemoryQuota) == a.mem.used && Allowed(a, MemoryQuota) == a.mem.max
    ensures Used(a, ThreadQuota) == a.threads.used && Allowed(a, ThreadQuota) == a.threads.max
    ensures Used(a, CapQuota) == a.caps && Allowed(a, CapQuota) == a.maxCaps
    ensures Used(a, CpuQuota) * 1000000 <= a.cpuTime < (Used(a, CpuQuota) + 1) * 1000000
    ensures Allowed(a, CpuQuota) == 10 * a.cpuPercent
  {
  }

  lemma PercentIs(used: nat, max: nat)
    requires PercentFits(used, max)
    ensures Percent(used, max) == used * 100 / Whole(max)
  {
    Bits.DivModUnique(used * 100, U64, 0, used * 100);
    Bits.DivModUnique(used * 100 / Whole(max), U32, 0, used * 100 / Whole(max));
  }

  /** The level the share in use calls for. */
  function ShareLevel(used: nat, max: nat): Level {
    if 20 * used >= 19 * Whole(max) then Critical else if 5 * used >= 4 * Whole(max) then Warning else Fine
  }

  /** The share in use shows in the level: within the quota, the product stays in its 64 bits or is
      not due a warning; beyond the quota, what the 64 and then the 32 bits leave of it still
      reaches 95 percent. */
  predicate Shows(used: nat, max: nat) {
    if used <= max then used * 100 < U64 || 5 * used < 4 * max
    else
      Bits.AtLeastOnce(0, Whole(max), U32);
      used * 100 % U64 % (Whole(max) * U32) >= 95 * Whole(max)
  }

  /** An amount not refused is answered by the true level if and only if the share in use shows; a
      product beyond its word is always called fine while the quota is not overdrawn. */
  lemma LevelRightIff(s: Accounts, d: DomainId, kind: Kind, amount: nat)
    requires d < MAX_DOMAINS && Used(s[d], kind) < U64 && Check(s, d, kind, amount) != Exceeded
    ensures var used, max, level := Used(s[d], kind), Allowed(s[d], kind), Check(s, d, kind, amount);
            && (level == ShareLevel(used, max) <==> Shows(used, max))
            && (used <= max && used * 100 >= U64 ==> level == Fine)
  {
    var used, max := Used(s[d], kind), Allowed(s[d], kind);
    hide Used, Allowed;
    if used > max {
      OverdrawnPercent(used, max);
    } else if used * 100 >= U64 {
      OverflowPercent(used, max);
    } else {
      AtLeastIff(used * 100, Whole(max), 101);
      PercentIs(used, max);
      AtLeastIff(used * 100, Whole(max), 95);
      AtLeastIff(used * 100, Whole(max), 80);
    }
    hide Percent;
  }

  /** A product beyond its word is short of 80 percent of the quota after losing its high bits. */
  lemma OverflowPercent(used: nat, max: nat)
    requires used <= max && used < U64 && used * 100 >= U64
    ensures Percent(used, max) < 80
  {
    var product := used * 100;
    LeftOver(used, product / U64, product % U64);
    Short(product % U64, max);
  }

  lemma Short(left: nat, max: nat)
    requires left < 80 * max
    ensures left / max % U32 < 80
  {
    AtLeastIff(left, max, 80);
    var percent := left / max;
    Small(percent, U32);
  }

  lemma LeftOver(used: nat, k: nat, left: nat)
    requires used * 100 == k * U64 + left && k >= 1 && left < U64
    ensures left < 80 * used
  {
  }

  lemma OverdrawnPercent(used: nat, max: nat)
    requires used > max
    ensures Percent(used, max) >= 95 <==> Shows(used, max)
  {
    var left, whole := used * 100 % U64, Whole(max);
    Bits.LowDigits(left, whole, U32);
    var percent := left / whole % U32;
    assert Percent(used, max) == percent;
    if percent >= 95 { Times(95, percent, whole); } else { Bits.AtLeastOnce(percent, 95, whole); }
  }

  /** So every quota whose product overflows is reported as fine when it is used up. */
  lemma FullIsFine(s: Accounts, d: DomainId)
    requires d < MAX_DOMAINS && s[d].mem.max == s[d].mem.used < U64 && s[d].mem.used * 100 >= U64
    ensures Check(s, d, MemoryQuota, 0) == Fine && ShareLevel(s[d].mem.used, s[d].mem.max) == Critical
  {
    LevelRightIff(s, d, MemoryQuota, 0);
  }

  /** And one overdrawn far enough too: here the 32 bits of the percentage are lost. */
  lemma OverdrawnIsFine(s: Accounts, d: DomainId)
    requires d < MAX_DOMAINS && s[d].threads.max == 1 && s[d].threads.used == U32 / 100 + 1
    ensures Check(s, d, ThreadQuota, 0) == Fine && ShareLevel(s[d].threads.used, s[d].threads.max) == Critical
  {
    LevelRightIff(s, d, ThreadQuota, 0);
  }

  lemma AtLeastIff(x: nat, max: nat, percent: nat)
    requires max > 0
    ensures x / max >= percent <==> x >= percent * max
  {
    var q, r := x / max, x % max;
    assert x == q * max + r;
    if q >= percent { Times(percent, q, max); } else { Bits.AtLeastOnce(q, percent, max); }
  }

  lemma Times(a: nat, b: nat, c: nat)
    requires a <= b
    ensures a * c <= b * c
  {
  }

  // ---------------------------------------------------------------- using and giving back

  /** The counters fit their words and the quota of memory does. */
  predicate Fits(a: Account) {
    && a.mem.max < U64 && a.mem.used < U64 && a.threads.used < U32 && a.caps < U32 && a.cpuTime < U64
  }

  /** What one use counts for. */
  function Counts(kind: Kind, amount: nat): nat {
    match kind
    case MemoryQuota => amount
    case ThreadQuota => 1
    case CapQuota => 1
    case CpuQuota => amount
  }

  /** The counter a kind is kept in. */
  function CounterOf(a: Account, kind: Kind): nat {
    match kind
    case MemoryQuota => a.mem.used
    case ThreadQuota => a.threads.used
    case CapQuota => a.caps
    case CpuQuota => a.cpuTime
  }

  /** All but that counter. */
  predicate SameBut(a: Account, b: Account, kind: Kind) {
    match kind
    case MemoryQuota => b == a.(mem := a.mem.(used := b.mem.used))
    case ThreadQuota => b == a.(threads := a.threads.(used := b.threads.used))
    case CapQuota => b == a.(caps := b.caps)
    case CpuQuota => b == a.(cpuTime := b.cpuTime)
  }

  predicate WordOf(kind: Kind, n: nat) {
    n < if kind == ThreadQuota || kind == CapQuota then U32 else U64
  }

  /** A use goes through exactly when nothing is asked for or the quota is not exceeded; then the one
      counter of its kind goes up by the amount, or by one, and nothing else changes. */
  lemma ConsumeCounts(s: Accounts, d: DomainId, kind: Kind, amount: nat)
    requires d < MAX_DOMAINS
    ensures var r := Consume(s, d, kind, amount);
            && (r.0 == Done <==> amount == 0 || Used(s[d], kind) + amount <= Allowed(s[d], kind))
            && (r.0 != Done ==> r == (QuotaExceeded, s))
            && (r.0 == Done ==>
                  && r.1 == s[d := r.1[d]] && SameBut(s[d], r.1[d], kind)
                  && (WordOf(kind, CounterOf(s[d], kind) + Counts(kind, amount)) ==>
                        CounterOf(r.1[d], kind) == CounterOf(s[d], kind) + Counts(kind, amount)))
  {
    CheckLevels(s, d, kind, amount);
    hide Check, Used, Allowed;
    var a, n := s[d], CounterOf(s[d], kind) + Counts(kind, amount);
    if WordOf(kind, n) { Small(n, if kind == ThreadQuota || kind == CapQuota then U32 else U64); }
  }

  /** Giving back what was just used restores the account exactly when it is not processor time, or
      none was used; and a counter at the very end of its word is not restored. */
  lemma GiveBackRestoresIff(s: Accounts, d: DomainId, kind: Kind, amount: nat)
    requires d < MAX_DOMAINS && Fits(s[d]) && Consume(s, d, kind, amount).0 == Done && amount < U64
    ensures GiveBack(Consume(s, d, kind, amount).1, d, kind, amount) == s
            <==> if kind == CpuQuota then amount == 0 else WordOf(kind, CounterOf(s[d], kind) + Counts(kind, amount))
  {
    ConsumeCounts(s, d, kind, amount);
    var t := Consume(s, d, kind, amount).1;
    var back := GiveBack(t, d, kind, amount);
    assert back == s <==> back[d] == s[d];
    if kind == MemoryQuota && amount > 0 { assert s[d].mem.used + amount < U64; }
    if kind == CpuQuota && amount > 0 { Moved(s[d].cpuTime, amount, U64); }
    if (kind == ThreadQuota || kind == CapQuota) && CounterOf(s[d], kind) + 1 == U32 { WrapsToZero(U32); }
    hide Check, Percent;
  }

  lemma WrapsToZero(word: nat)
    requires word > 1
    ensures word % word == 0
  {
    Bits.DivModUnique(word, word, 1, 0);
  }

  /** Adding less than a whole word to a counter changes it. */
  lemma Moved(x: nat, amount: nat, word: nat)
    requires x < word && 0 < amount < word
    ensures (x + amount) % word != x
  {
    if x + amount < word {
      Bits.DivModUnique(x + amount, word, 0, x + amount);
    } else {
      Bits.DivModUnique(x + amount, word, 1, x + amount - word);
    }
  }

  /** Release takes from one counter, never below zero, and changes nothing else; processor time is
      not given back. */
  lemma GiveBackTakes(s: Accounts, d: DomainId, kind: Kind, amount: nat)
    requires d < MAX_DOMAINS
    ensures var t := GiveBack(s, d, kind, amount); var was, n := CounterOf(s[d], kind), Counts(kind, amount);
            && t == s[d := t[d]] && SameBut(s[d], t[d], kind)
            && CounterOf(t[d], kind) == if kind == CpuQuota then was else if was < n then 0 else was - n
  {
  }

  /** A delegation that goes through gives the child just what was asked for and names its parent; what
      the parent may still delegate goes down by as much. */
  lemma DelegateGives(s: Accounts, parent: DomainId, child: DomainId, mem: nat, threads: nat)
    requires parent < MAX_DOMAINS && child < MAX_DOMAINS && parent != child && Sane(s[parent])
    ensures var r := Delegate(s, parent, child, mem, threads); var p, q := s[parent], r.1[parent];
            && (r.0 == Done <==> p.mem.delegated + p.mem.used + mem <= p.mem.max
                                 && p.threads.delegated + p.threads.used + threads <= p.threads.max)
            && (r.0 != Done ==> r == (QuotaExceeded, s))
            && (r.0 == Done ==>
                  && Allowed(r.1[child], MemoryQuota) == mem && Allowed(r.1[child], ThreadQuota) == threads
                  && r.1[child].parent == parent
                  && (forall k :: Used(r.1[child], k) == Used(s[child], k))
                  && Room(q.mem, U64) == Room(p.mem, U64) - mem && Room(q.threads, U32) == Room(p.threads, U32) - threads
                  && r.1 == s[parent := q][child := r.1[child]] && q.mem.max == p.mem.max && q.mem.used == p.mem.used
                  && q.threads.max == p.threads.max && q.threads.used == p.threads.used)
  {
    var p := s[parent];
    RoomIs(p.mem, U64);
    RoomIs(p.threads, U32);
    var r := Delegate(s, parent, child, mem, threads);
    if r.0 == Done {
      GivenIs(p.mem, mem, U64);
      GivenIs(p.threads, threads, U32);
      RoomIs(r.1[parent].mem, U64);
      RoomIs(r.1[parent].threads, U32);
    }
    hide Room, Given;
  }

  // ---------------------------------------------------------------- the books

  function Sum(xs: seq<int>): int {
    if xs == [] then 0 else Sum(xs[..|xs| - 1]) + xs[|xs| - 1]
  }

  lemma {:induction false} SumUpdate(xs: seq<int>, i: nat, v: int)
    requires i < |xs|
    ensures Sum(xs[i := v]) == Sum(xs) - xs[i] + v
  {
    var n := |xs| - 1;
    if i == n {
      assert xs[i := v][..n] == xs[..n];
    } else {
      assert xs[i := v][..n] == xs[..n][i := v];
      SumUpdate(xs[..n], i, v);
    }
  }

  function MemKept(s: Accounts): int {
    Sum(seq(|s|, i requires 0 <= i < |s| => s[i].mem.Kept()))
  }

  function ThreadsKept(s: Accounts): int {
    Sum(seq(|s|, i requires 0 <= i < |s| => s[i].threads.Kept()))
  }

  lemma KeptUpdate(s: Accounts, d: DomainId, a: Account)
    requires d < MAX_DOMAINS
    ensures MemKept(s[d := a]) == MemKept(s) - s[d].mem.Kept() + a.mem.Kept()
    ensures ThreadsKept(s[d := a]) == ThreadsKept(s) - s[d].threads.Kept() + a.threads.Kept()
  {
    hide Sum;
    var mems := seq(|s|, i requires 0 <= i < |s| => s[i].mem.Kept());
    var threads := seq(|s|, i requires 0 <= i < |s| => s[i].threads.Kept());
    SumUpdate(mems, d, a.mem.Kept());
    SumUpdate(threads, d, a.threads.Kept());
    var t: Accounts := s[d := a];
    assert seq(|t|, i requires 0 <= i < |t| => t[i].mem.Kept()) == mems[d := a.mem.Kept()];
    assert seq(|t|, i requires 0 <= i < |t| => t[i].threads.Kept()) == threads[d := a.threads.Kept()];
  }

  predicate Sane(a: Account) {
    && a.mem.Solvent() && a.mem.max < U64 && a.threads.Solvent() && a.threads.max < U32
  }

  /** No domain has promised more than it has, and the quotas kept add up to the given totals. */
  ghost predicate Books(s: Accounts, mem: int, threads: int) {
    && (forall d :: 0 <= d < |s| ==> Sane(s[d]))
    && MemKept(s) == mem && ThreadsKept(s) == threads
  }

  datatype Op =
    | OpConsume(domain: DomainId, kind: Kind, amount: nat)
    | OpRelease(domain: DomainId, kind: Kind, amount: nat)
    | OpDelegate(parent: DomainId, child: DomainId, mem: nat, threads: nat)

  function Step(s: Accounts, op: Op): Accounts {
    match op
    case OpConsume(d, kind, amount) => Consume(s, d, kind, amount).1
    case OpRelease(d, kind, amount) => GiveBack(s, d, kind, amount)
    case OpDelegate(parent, child, mem, threads) => Delegate(s, parent, child, mem, threads).1
  }

  /** The operations that spoil the books: using what was delegated, and delegating to a domain
      that already has a quota.  A thread too many is one more than is kept, since the counter goes
      up by one even for an amount of zero; only at the end of its word it falls back to zero. */
  predicate Spoils(s: Accounts, op: Op) {
    match op
    case OpConsume(d, kind, amount) =>
      && d < MAX_DOMAINS && amount <= Available(s[d], kind)
      && (kind == MemoryQuota ==> s[d].mem.delegated + s[d].mem.used + amount > s[d].mem.max)
      && (kind == ThreadQuota ==>
            s[d].threads.delegated + s[d].threads.used == s[d].threads.max && s[d].threads.used + 1 < U32)
      && (kind == MemoryQuota || kind == ThreadQuota)
    case OpRelease(_, _, _) => false
    case OpDelegate(parent, child, mem, threads) =>
      && parent < MAX_DOMAINS && child < MAX_DOMAINS
      && mem <= Room(s[parent].mem, U64) && threads <= Room(s[parent].threads, U32)
      && (s[child].mem.max != 0 || s[child].threads.max != 0)
  }

  lemma RoomIs(p: Purse, word: nat)
    requires p.Solvent() && p.max < word
    ensures Room(p, word) == p.max - p.delegated - p.used
  {
    Bits.DivModUnique(p.max - p.delegated - p.used, word, 0, p.max - p.delegated - p.used);
  }

  lemma Small(x: nat, word: nat)
    requires x < word
    ensures x % word == x
  {
    Bits.DivModUnique(x, word, 0, x);
  }

  /** One changed account: the books hold after just when it is sane and keeps as much as before. */
  lemma OneChange(s: Accounts, d: DomainId, a: Account, mem: int, threads: int)
    requires Books(s, mem, threads) && d < MAX_DOMAINS
    ensures Books(s[d := a], mem, threads)
            <==> Sane(a) && a.mem.Kept() == s[d].mem.Kept() && a.threads.Kept() == s[d].threads.Kept()
  {
    hide MemKept, ThreadsKept, Sane;
    KeptUpdate(s, d, a);
    var t: Accounts := s[d := a];
    assert t[d] == a;
  }

  lemma ConsumeIff(s: Accounts, d: DomainId, kind: Kind, amount: nat, mem: int, threads: int)
    requires Books(s, mem, threads)
    ensures Books(Consume(s, d, kind, amount).1, mem, threads) <==> !Spoils(s, OpConsume(d, kind, amount))
  {
    hide MemKept, ThreadsKept, Percent;
    var r := Consume(s, d, kind, amount);
    if r.0 == Done {
      var a := s[d];
      assert Sane(a);
      OneChange(s, d, r.1[d], mem, threads);
      if kind == MemoryQuota { Small(a.mem.used + amount, U64); }
      if kind == ThreadQuota && a.threads.used + 1 < U32 { Small(a.threads.used + 1, U32); }
    }
  }

  lemma GiveBackKeeps(s: Accounts, d: DomainId, kind: Kind, amount: nat, mem: int, threads: int)
    requires Books(s, mem, threads)
    ensures Books(GiveBack(s, d, kind, amount), mem, threads)
  {
    hide MemKept, ThreadsKept;
    if d < MAX_DOMAINS && kind != CpuQuota {
      assert Sane(s[d]);
      OneChange(s, d, GiveBack(s, d, kind, amount)[d], mem, threads);
    }
  }

  lemma DelegateIff(s: Accounts, parent: DomainId, child: DomainId, mem: nat, threads: nat, allMem: int, allThreads: int)
    requires Books(s, allMem, allThreads)
    ensures Books(Delegate(s, parent, child, mem, threads).1, allMem, allThreads)
            <==> !Spoils(s, OpDelegate(parent, child, mem, threads))
  {
    hide MemKept, ThreadsKept, Room, Given;
    var r := Delegate(s, parent, child, mem, threads);
    if r.0 == Done {
      var p := s[parent];
      assert Sane(p) && Sane(s[child]);
      RoomIs(p.mem, U64);
      RoomIs(p.threads, U32);
      GivenIs(p.mem, mem, U64);
      GivenIs(p.threads, threads, U32);
      var a := p.(mem := Given(p.mem, mem, U64), threads := Given(p.threads, threads, U32));
      var t: Accounts := s[parent := a];
      KeptUpdate(s, parent, a);
      KeptUpdate(t, child, r.1[child]);
      assert forall d :: 0 <= d < |s| && d != child ==> Sane(r.1[d]);
      assert Books(r.1, allMem, allThreads) ==> Sane(r.1[child]);
    }
  }

  lemma GivenIs(p: Purse, amount: nat, word: nat)
    requires p.Solvent() && p.max < word && p.delegated + p.used + amount <= p.max
    ensures Given(p, amount, word) == p.(delegated := p.delegated + amount)
  {
    Small(p.delegated + amount, word);
  }

  /** One operation keeps the books exactly when it does not spoil them. */
  lemma BooksStepIff(s: Accounts, op: Op, mem: int, threads: int)
    requires Books(s, mem, threads)
    ensures Books(Step(s, op), mem, threads) <==> !Spoils(s, op)
  {
    hide Books, Consume, GiveBack, Delegate;
    match op
    case OpConsume(d, kind, amount) => ConsumeIff(s, d, kind, amount, mem, threads);
    case OpRelease(d, kind, amount) => GiveBackKeeps(s, d, kind, amount, mem, threads);
    case OpDelegate(parent, child, m, t) => DelegateIff(s, parent, child, m, t, mem, threads);
  }

  function Run(s: Accounts, ops: seq<Op>): Accounts
    decreases |ops|
  {
    if ops == [] then s else Run(Step(s, ops[0]), ops[1..])
  }

  predicate Clean(s: Accounts, ops: seq<Op>)
    decreases |ops|
  {
    ops == [] || (!Spoils(s, ops[0]) && Clean(Step(s, ops[0]), ops[1..]))
  }

  lemma {:induction false} RunBooks(s: Accounts, ops: seq<Op>, mem: int, threads: int)
    requires Books(s, mem, threads) && Clean(s, ops)
    ensures Books(Run(s, ops), mem, threads)
    decreases |ops|
  {
    hide Books, Spoils, Step;
    if ops != [] {
      BooksStepIff(s, ops[0], mem, threads);
      RunBooks(Step(s, ops[0]), ops[1..], mem, threads);
    }
  }

  /** One domain holds all quota. */
  function Root(root: DomainId, mem: nat, threads: nat): Accounts
    requires root < MAX_DOMAINS
  {
    seq(MAX_DOMAINS, i => NoAccount())[root := NoAccount().(mem := Purse(mem, 0, 0), threads := Purse(threads, 0, 0))]
  }

  lemma {:induction false} SumZeros(n: nat)
    ensures Sum(seq(n, i => 0)) == 0
  {
    if n > 0 {
      assert seq(n, i => 0)[..n - 1] == seq(n - 1, i => 0);
      SumZeros(n - 1);
    }
  }

  lemma RootBooks(root: DomainId, mem: nat, threads: nat)
    requires root < MAX_DOMAINS && mem < U64 && threads < U32
    ensures Books(Root(root, mem, threads), mem, threads)
  {
    var none: Accounts := seq(MAX_DOMAINS, i => NoAccount());
    SumZeros(MAX_DOMAINS);
    assert seq(|none|, i requires 0 <= i < |none| => none[i].mem.Kept()) == seq(MAX_DOMAINS, i => 0);
    assert seq(|none|, i requires 0 <= i < |none| => none[i].threads.Kept()) == seq(MAX_DOMAINS, i => 0);
    KeptUpdate(none, root, NoAccount().(mem := Purse(mem, 0, 0), threads := Purse(threads, 0, 0)));
  }

  /** From one root quota, over every run that spoils nothing: what the domains keep adds up to the
      root quota, no domain uses or promises more than it has, and the unsigned subtractions are exact. */
  lemma QuotaConserved(root: DomainId, mem: nat, threads: nat, ops: seq<Op>)
    requires root < MAX_DOMAINS && mem < U64 && threads < U32 && Clean(Root(root, mem, threads), ops)
    ensures var s := Run(Root(root, mem, threads), ops);
            && MemKept(s) == mem && ThreadsKept(s) == threads
            && forall d :: 0 <= d < MAX_DOMAINS ==>
                 && s[d].mem.Solvent() && Room(s[d].mem, U64) == s[d].mem.max - s[d].mem.delegated - s[d].mem.used
                 && s[d].threads.Solvent()
                 && Room(s[d].threads, U32) == s[d].threads.max - s[d].threads.delegated - s[d].threads.used
  {
    hide MemKept, ThreadsKept, Run, Clean, Room, Root;
    RootBooks(root, mem, threads);
    RunBooks(Root(root, mem, threads), ops, mem, threads);
    var s := Run(Root(root, mem, threads), ops);
    forall d | 0 <= d < MAX_DOMAINS
      ensures s[d].mem.Solvent() && Room(s[d].mem, U64) == s[d].mem.max - s[d].mem.delegated - s[d].mem.used
      ensures s[d].threads.Solvent()
      ensures Room(s[d].threads, U32) == s[d].threads.max - s[d].threads.delegated - s[d].threads.used
    {
      assert Sane(s[d]);
      RoomIs(s[d].mem, U64);
      RoomIs(s[d].threads, U32);
    }
  }

  /** The use check looks at the whole quota, not at what is left after delegation: a domain can
      delegate all its memory, then use all of it, and from then on delegate almost anything. */
  lemma UsedTwice(mem: nat)
    requires 0 < mem < U64
    ensures var s := Run(Root(0, mem, 0), [OpDelegate(0, 1, mem, 0), OpConsume(0, MemoryQuota, mem)]);
            s[0].mem == Purse(mem, mem, mem) && Room(s[0].mem, U64) == U64 - mem
  {
    var s0 := Root(0, mem, 0);
    var first, second := OpDelegate(0, 1, mem, 0), OpConsume(0, MemoryQuota, mem);
    RoomIs(s0[0].mem, U64);
    RoomIs(s0[0].threads, U32);
    Small(mem, U64);
    var s1 := Step(s0, first);
    assert s1[0].mem == Purse(mem, mem, 0);
    var s2 := Step(s1, second);
    assert s2[0].mem == Purse(mem, mem, mem);
    TwoSteps(s0, first, second);
  }

  lemma TwoSteps(s: Accounts, first: Op, second: Op)
    ensures Run(s, [first, second]) == Step(Step(s, first), second)
  {
    hide Step;
    var ops := [first, second];
    assert ops[1..] == [second];
    assert Run(Step(s, first), [second]) == Run(Step(Step(s, first), second), [second][1..]);
  }
}
