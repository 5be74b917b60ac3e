/** The audit log: a byte buffer of fixed-size entries that starts over when it is full, and the
    queries over what the current lap holds. */
module AuditLog {
  import opened Capability
  import Bits

  const ENTRY_SIZE := 72
  const DOMAIN_ID_INVALID := 0xFFFF_FFFF

  /** The arguments of `audit_log_event` together with the time it reads. */
  datatype Event = Event(timestamp: nat, kind: nat, domain: nat, cap: nat, thread: nat, data: seq<nat>, result: nat)

  datatype Record = Record(timestamp: nat, sequence: nat, kind: nat, domain: nat, cap: nat, thread: nat,
                           data: seq<nat>, result: nat)

  /** A zero in `kind`, `start` or `end`, or the invalid domain, asks for nothing. */
  datatype Filter = Filter(domain: nat, kind: nat, start: nat, end: nat, maxResults: nat, offset: nat)

  datatype Verdict = Ok | BadParam | BufferTooSmall

  /** How many entries fit in so many bytes. */
  function Entries(bytes: nat): nat {
    bytes / ENTRY_SIZE
  }

  function Min(a: nat, b: nat): nat {
    if a < b then a else b
  }

  /** The first four data words, zero-filled. */
  function FourWords(data: seq<nat>): (r: seq<nat>)
    ensures |r| == 4
    ensures forall i :: 0 <= i < 4 ==> r[i] == if i < |data| then data[i] else 0
  {
    data[..Min(|data|, 4)] + seq(4 - Min(|data|, 4), i => 0)
  }

  /** The 64-bit event counter, and the 32-bit number taken from it. */
  function Counter(n: nat): nat {
    n % U64
  }

  function Short(n: nat): nat {
    n % U32
  }

  /** The record of an event that is number `n` in the history, counted from 1. */
  function RecordOf(e: Event, n: nat): Record {
    Record(e.timestamp, Short(n), e.kind, e.domain, e.cap, e.thread, FourWords(e.data), e.result)
  }

  function Records(history: seq<Event>): (r: seq<Record>)
    ensures |r| == |history|
  {
    seq(|history|, i requires 0 <= i < |history| => RecordOf(history[i], i + 1))
  }

  // ---------------------------------------------------------------- the lap

  /** How many events the buffer of `slots` entries holds after `n` events. */
  function LapLength(n: nat, slots: nat): (l: nat)
    requires slots >= 1
    ensures l <= n && l <= slots
    ensures n > 0 ==> l > 0
  {
    if n == 0 then 0 else (n - 1) % slots + 1
  }

  /** The events since the buffer last started over. */
  function Lap(history: seq<Event>, slots: nat): (r: seq<Record>)
    requires slots >= 1
    ensures |r| == LapLength(|history|, slots)
  {
    Records(history)[|history| - LapLength(|history|, slots)..]
  }

  lemma LapLengthStep(n: nat, slots: nat)
    requires slots >= 1
    ensures LapLength(n + 1, slots) == if LapLength(n, slots) == slots then 1 else LapLength(n, slots) + 1
  {
    if n == 0 {
      Bits.DivModUnique(0, slots, 0, 0);
    } else {
      Bits.ModIncrement(n - 1, slots);
    }
  }

  /** Logging adds to the lap, or starts a new one when the lap is full. */
  lemma LapStep(history: seq<Event>, e: Event, slots: nat)
    requires slots >= 1
    ensures var r := RecordOf(e, |history| + 1);
            Lap(history + [e], slots) == if |Lap(history, slots)| == slots then [r] else Lap(history, slots) + [r]
  {
    hide RecordOf;
    LapLengthStep(|history|, slots);
    hide LapLength;
    assert forall i :: 0 <= i < |history| ==> Records(history + [e])[i] == Records(history)[i];
    assert Records(history + [e]) == Records(history) + [RecordOf(e, |history| + 1)];
  }

  // ---------------------------------------------------------------- queries as functions

  function Reversed(s: seq<Record>): (r: seq<Record>)
    ensures |r| == |s|
  {
    seq(|s|, i requires 0 <= i < |s| => s[|s| - 1 - i])
  }

  function Kept(s: seq<Record>, keep: Record -> bool): (r: seq<Record>)
    ensures |r| <= |s|
  {
    if s == [] then []
    else
      var last := s[|s| - 1];
      Kept(s[..|s| - 1], keep) + if keep(last) then [last] else []
  }

  /** `limit` entries after skipping `offset`. */
  function Page(s: seq<Record>, offset: nat, limit: nat): (r: seq<Record>)
    ensures |r| == Min(limit, if offset < |s| then |s| - offset else 0)
  {
    if offset < |s| then s[offset..][..Min(limit, |s| - offset)] else []
  }

  /** The test of `audit_query`; a record numbered 0 counts as never written. */
  predicate Matches(f: Filter, r: Record) {
    && r.sequence != 0
    && (f.domain == DOMAIN_ID_INVALID || r.domain == f.domain)
    && (f.kind == 0 || r.kind == f.kind)
    && (f.start == 0 || r.timestamp >= f.start)
    && (f.end == 0 || r.timestamp <= f.end)
  }

  predicate OfDomain(r: Record, domain: nat) {
    r.sequence != 0 && r.domain == domain
  }

  predicate OfKind(r: Record, kind: nat) {
    r.sequence != 0 && r.kind == kind
  }

  /** The newest `limit` records of the lap that pass, after skipping `offset` of them. */
  function Answer(history: seq<Event>, slots: nat, keep: Record -> bool, offset: nat, limit: nat): seq<Record>
    requires slots >= 1
  {
    Page(Kept(Reversed(Lap(history, slots)), keep), offset, limit)
  }

  // ---------------------------------------------------------------- the scan

  lemma KeptStep(s: seq<Record>, i: nat, keep: Record -> bool)
    requires i < |s|
    ensures Kept(s[..i + 1], keep) == Kept(s[..i], keep) + if keep(s[i]) then [s[i]] else []
  {
    assert s[..i + 1][..i] == s[..i];
  }

  lemma {:induction false} KeptPrefix(s: seq<Record>, i: nat, keep: Record -> bool)
    requires i <= |s|
    ensures Kept(s[..i], keep) <= Kept(s, keep)
    decreases |s|
  {
    if i == |s| {
      assert s[..i] == s;
    } else {
      assert s[..|s| - 1][..i] == s[..i];
      KeptPrefix(s[..|s| - 1], i, keep);
    }
  }

  /** A full page does not change when the scan goes on. */
  lemma FullPage(s: seq<Record>, t: seq<Record>, offset: nat, limit: nat)
    requires s <= t && |Page(s, offset, limit)| == limit
    ensures Page(t, offset, limit) == Page(s, offset, limit)
  {
  }

  lemma PageStep(s: seq<Record>, r: Record, offset: nat, limit: nat)
    ensures Page(s + [r], offset, limit)
            == if |s| < offset || |Page(s, offset, limit)| >= limit then Page(s, offset, limit)
               else Page(s, offset, limit) + [r]
  {
  }

  /** The scan of all queries, over the records read so far. */
  lemma ScanStep(s: seq<Record>, i: nat, keep: Record -> bool, offset: nat, limit: nat)
    requires i < |s|
    ensures var now, next := Kept(s[..i], keep), Kept(s[..i + 1], keep);
            && (!keep(s[i]) ==> next == now)
            && (keep(s[i]) ==>
                  && |next| == |now| + 1
                  && Page(next, offset, limit)
                     == if |now| < offset || |Page(now, offset, limit)| >= limit then Page(now, offset, limit)
                        else Page(now, offset, limit) + [s[i]])
  {
    hide Page, Kept;
    KeptStep(s, i, keep);
    if keep(s[i]) { PageStep(Kept(s[..i], keep), s[i], offset, limit); }
    else { assert Kept(s[..i], keep) + [] == Kept(s[..i], keep); }
  }

  lemma ScanEnds(s: seq<Record>, i: nat, keep: Record -> bool, offset: nat, limit: nat)
    requires i <= |s| && (i == |s| || |Page(Kept(s[..i], keep), offset, limit)| == limit)
    ensures Page(Kept(s, keep), offset, limit) == Page(Kept(s[..i], keep), offset, limit)
  {
    hide Page, Kept;
    if i == |s| {
      assert s[..i] == s;
    } else {
      KeptPrefix(s, i, keep);
      FullPage(Kept(s[..i], keep), Kept(s, keep), offset, limit);
    }
  }

  lemma Nothing(s: seq<Record>, keep: Record -> bool, offset: nat, limit: nat)
    ensures Kept(s[..0], keep) == [] && Page([], offset, limit) == []
  {
  }

  /** The space test on bytes is a count of entries. */
  lemma FullIff(used: nat, size: nat)
    requires used <= Entries(size)
    ensures ENTRY_SIZE * used + ENTRY_SIZE > size <==> used == Entries(size)
    ensures Entries(ENTRY_SIZE * used) == used && Entries(0) == 0
  {
  }

  /** The 32-bit number of an entry is that of its place in the history, whatever the counter did. */
  lemma Numbered(e: Event, n: nat)
    ensures RecordOf(e, n)
            == Record(e.timestamp, Short(Counter(n)), e.kind, e.domain, e.cap, e.thread, FourWords(e.data), e.result)
    ensures Counter(Counter(n) + 1) == Counter(n + 1)
  {
    hide FourWords;
    var q, r := n / U64, n % U64;
    Bits.DivModUnique(n, U32, U32 * q + r / U32, r % U32);
    Bits.ModIncrement(n, U64);
    Bits.ModIncrement(r, U64);
  }

  // ---------------------------------------------------------------- in place

  class Log {
    var initialized: bool
    var size: nat
    var buffer: array<Record>
    var writeOffset: nat
    var sequence: nat
    ghost var history: seq<Event>

    ghost predicate Valid()
      reads this, buffer
    {
      if !initialized then history == []
      else
        && size >= ENTRY_SIZE && buffer.Length == Entries(size)
        && writeOffset == ENTRY_SIZE * LapLength(|history|, buffer.Length)
        && sequence == Counter(|history| + 1)
        && buffer[..LapLength(|history|, buffer.Length)] == Lap(history, buffer.Length)
    }

    /** `audit_system_init` */
    constructor ()
      ensures Valid() && !initialized
    {
      initialized, size, writeOffset, sequence, history := false, 0, 0, 0, [];
      buffer := new Record[0];
    }

    /** `audit_system_init_buffer` */
    method InitBuffer(bytes: nat)
      requires Valid()
      modifies this
      ensures Valid()
      ensures bytes < ENTRY_SIZE ==> initialized == old(initialized) && history == old(history)
      ensures bytes >= ENTRY_SIZE ==> initialized && history == [] && fresh(buffer) && buffer.Length == Entries(bytes)
    {
      if bytes < ENTRY_SIZE { return; }
      initialized, size, writeOffset, sequence, history := true, bytes, 0, 1, [];
      buffer := new Record[Entries(bytes)](i => Record(0, 0, 0, 0, 0, 0, [0, 0, 0, 0], 0));
    }

    /** Write a record behind the `used` entries, or at the start when there is no room. */
    method Append(record: Record, ghost used: nat)
      requires size >= ENTRY_SIZE && buffer.Length == Entries(size)
      requires used <= buffer.Length && writeOffset == ENTRY_SIZE * used
      modifies this`writeOffset, buffer
      ensures var kept := if used == buffer.Length then [] else old(buffer[..used]);
              && |kept| < buffer.Length && writeOffset == ENTRY_SIZE * (|kept| + 1)
              && buffer[..|kept| + 1] == kept + [record]
    {
      hide Entries;
      FullIff(used, size);
      if writeOffset + ENTRY_SIZE > size { writeOffset := 0; }
      var i := Entries(writeOffset);
      buffer[i] := record;
      writeOffset := writeOffset + ENTRY_SIZE;
    }

    /** `audit_log_event` */
    method LogEvent(e: Event)
      requires Valid()
      modifies this, buffer
      ensures Valid() && initialized == old(initialized) && buffer == old(buffer)
      ensures history == if initialized then old(history) + [e] else old(history)
    {
      if !initialized { return; }
      hide RecordOf, FourWords, Lap, LapLength, Counter, Short, Entries;
      LapStep(history, e, buffer.Length);
      LapLengthStep(|history|, buffer.Length);
      Numbered(e, |history| + 1);
      var record := Record(e.timestamp, Short(sequence), e.kind, e.domain, e.cap, e.thread, FourWords(e.data), e.result);
      sequence := Counter(sequence + 1);
      Append(record, LapLength(|history|, buffer.Length));
      history := history + [e];
    }

    /** The scan shared by the four queries: newest first, skipping `offset` matches, writing at
        most `limit` records to `output`. */
    method Scan(keep: Record -> bool, offset: nat, maxResults: nat, output: array<Record>) returns (count: nat)
      requires Valid() && initialized && output != buffer
      modifies output
      ensures count <= output.Length
      ensures output[..count] == Answer(history, buffer.Length, keep, offset, Min(maxResults, output.Length))
      ensures output[count..] == old(output[count..])
    {
      hide LapLength, Kept, Page;
      ghost var limit := Min(maxResults, output.Length);
      ghost var seen := Reversed(Lap(history, buffer.Length));
      var total := Entries(writeOffset);
      var i, skipped := 0, 0;
      count := 0;
      assert Kept(seen[..0], keep) == [] && Page([], offset, limit) == [] by { Nothing(seen, keep, offset, limit); }
      while i < total && count < maxResults
        invariant i <= total == |seen|
        invariant count == |Page(Kept(seen[..i], keep), offset, limit)| <= limit
        invariant skipped == Min(offset, |Kept(seen[..i], keep)|)
        invariant output[..count] == Page(Kept(seen[..i], keep), offset, limit)
        invariant output[count..] == old(output[count..])
        invariant buffer[..] == old(buffer[..])
      {
        var r := buffer[total - 1 - i];
        assert r == seen[i];
        ScanStep(seen, i, keep, offset, limit);
        if keep(r) {
          if skipped < offset {
            skipped := skipped + 1;
          } else if count < output.Length {
            ghost var before := output[..];
            output[count] := r;
            assert output[..count + 1] == before[..count] + [r];
            assert output[count + 1..] == before[count + 1..];
            count := count + 1;
          }
        }
        i := i + 1;
      }
      ScanEnds(seen, i, keep, offset, limit);
    }

    /** `audit_query`; the caller's buffer is `output`. */
    method Query(f: Filter, output: array<Record>) returns (verdict: Verdict, bytes: nat)
      requires Valid() && output != buffer
      modifies output
      ensures verdict == if !initialized then BadParam else if output.Length == 0 then BufferTooSmall else Ok
      ensures verdict == Ok ==>
                var found := Answer(history, buffer.Length, r => Matches(f, r), f.offset, Min(f.maxResults, output.Length));
                bytes == ENTRY_SIZE * |found| && output[..|found|] == found && output[|found|..] == old(output[|found|..])
      ensures verdict != Ok ==> bytes == 0 && output[..] == old(output[..])
    {
      if !initialized { return BadParam, 0; }
      if output.Length == 0 { return BufferTooSmall, 0; }
      var count := Scan(r => Matches(f, r), f.offset, f.maxResults, output);
      return Ok, ENTRY_SIZE * count;
    }

    /** `audit_query_by_domain` */
    method QueryByDomain(domain: nat, output: array<Record>) returns (verdict: Verdict, count: nat)
      requires Valid() && output != buffer
      modifies output
      ensures verdict == if !initialized then BadParam else Ok
      ensures verdict == Ok ==>
                var found := Answer(history, buffer.Length, r => OfDomain(r, domain), 0, output.Length);
                count == |found| && output[..count] == found && output[count..] == old(output[count..])
      ensures verdict != Ok ==> count == 0 && output[..] == old(output[..])
    {
      if !initialized { return BadParam, 0; }
      count := Scan(r => OfDomain(r, domain), 0, output.Length, output);
      verdict := Ok;
    }

    /** `audit_query_by_type` */
    method QueryByType(kind: nat, output: array<Record>) returns (verdict: Verdict, count: nat)
      requires Valid() && output != buffer
      modifies output
      ensures verdict == if !initialized then BadParam else Ok
      ensures verdict == Ok ==>
                var found := Answer(history, buffer.Length, r => OfKind(r, kind), 0, output.Length);
                count == |found| && output[..count] == found && output[count..] == old(output[count..])
      ensures verdict != Ok ==> count == 0 && output[..] == old(output[..])
    {
      if !initialized { return BadParam, 0; }
      count := Scan(r => OfKind(r, kind), 0, output.Length, output);
      verdict := Ok;
    }

    /** `audit_query_latest` */
    method QueryLatest(output: array<Record>) returns (verdict: Verdict, count: nat)
      requires Valid() && output != buffer
      modifies output
      ensures verdict == if !initialized then BadParam else Ok
      ensures verdict == Ok ==>
                var found := Answer(history, buffer.Length, r => true, 0, output.Length);
                count == |found| && output[..count] == found && output[count..] == old(output[count..])
      ensures verdict != Ok ==> count == 0 && output[..] == old(output[..])
    {
      if !initialized { return BadParam, 0; }
      count := Scan(r => true, 0, output.Length, output);
      verdict := Ok;
    }
  }

  // ---------------------------------------------------------------- what an answer is

  /** The record `i` events before the newest. */
  function Newest(history: seq<Event>, i: nat): Record
    requires i < |history|
  {
    RecordOf(history[|history| - 1 - i], |history| - i)
  }

  lemma NewestFirst(history: seq<Event>, slots: nat, i: nat)
    requires slots >= 1 && i < LapLength(|history|, slots)
    ensures Reversed(Lap(history, slots))[i] == Newest(history, i)
  {
    hide LapLength, RecordOf;
  }

  /** How many of the `i` newest events pass. */
  function Rank(history: seq<Event>, i: nat, keep: Record -> bool): nat
    requires i <= |history|
  {
    if i == 0 then 0 else Rank(history, i - 1, keep) + if keep(Newest(history, i - 1)) then 1 else 0
  }

  lemma {:induction false} RankIsKept(history: seq<Event>, slots: nat, i: nat, keep: Record -> bool)
    requires slots >= 1 && i <= LapLength(|history|, slots)
    ensures Rank(history, i, keep) == |Kept(Reversed(Lap(history, slots))[..i], keep)|
    decreases i
  {
    hide LapLength, Lap, Newest;
    if i > 0 {
      RankIsKept(history, slots, i - 1, keep);
      NewestFirst(history, slots, i - 1);
      KeptStep(Reversed(Lap(history, slots)), i - 1, keep);
    }
  }

  /** A record of the lap that passes is in the answer, and where: after `offset`, in order of
      age, unless `limit` newer ones fill the answer. */
  lemma AnswerHas(history: seq<Event>, slots: nat, keep: Record -> bool, offset: nat, limit: nat, i: nat)
    requires slots >= 1 && i < LapLength(|history|, slots) && keep(Newest(history, i))
    requires offset <= Rank(history, i, keep) < offset + limit
    ensures var at := Rank(history, i, keep) - offset; var found := Answer(history, slots, keep, offset, limit);
            at < |found| && found[at] == Newest(history, i)
  {
    hide LapLength, Lap, Newest, Kept;
    var s := Reversed(Lap(history, slots));
    NewestFirst(history, slots, i);
    RankIsKept(history, slots, i, keep);
    KeptStep(s, i, keep);
    KeptPrefix(s, i + 1, keep);
  }

  lemma {:induction false} KthKept(s: seq<Record>, keep: Record -> bool, k: nat) returns (i: nat)
    requires k < |Kept(s, keep)|
    ensures i < |s| && keep(s[i]) && |Kept(s[..i], keep)| == k
  {
    var front := s[..|s| - 1];
    if k < |Kept(front, keep)| {
      i := KthKept(front, keep, k);
      assert front[..i] == s[..i];
    } else {
      i := |s| - 1;
    }
  }

  /** Every record of an answer is one of the lap that passes, at its place. */
  lemma AnswerOnly(history: seq<Event>, slots: nat, keep: Record -> bool, offset: nat, limit: nat, at: nat) returns (i: nat)
    requires slots >= 1 && at < |Answer(history, slots, keep, offset, limit)|
    ensures i < LapLength(|history|, slots) && keep(Newest(history, i)) && Rank(history, i, keep) == offset + at
    ensures Answer(history, slots, keep, offset, limit)[at] == Newest(history, i)
  {
    hide LapLength, Lap, Newest, Kept;
    var s := Reversed(Lap(history, slots));
    i := KthKept(s, keep, offset + at);
    NewestFirst(history, slots, i);
    RankIsKept(history, slots, i, keep);
    AnswerHas(history, slots, keep, offset, limit, i);
  }

  /** `audit_query_latest` returns the newest events of the lap, newest first; while fewer than
      2^32 events were logged their numbers descend one by one. */
  lemma LatestDescends(history: seq<Event>, slots: nat, limit: nat)
    requires slots >= 1
    ensures var found := Answer(history, slots, r => true, 0, limit);
            && |found| == Min(limit, LapLength(|history|, slots))
            && forall i :: 0 <= i < |found| ==>
                 found[i] == Newest(history, i) && (|history| < U32 ==> found[i].sequence == |history| - i)
  {
    hide LapLength, Lap;
    var s := Reversed(Lap(history, slots));
    AllKept(s);
    assert Answer(history, slots, r => true, 0, limit) == s[..Min(limit, |s|)];
    forall i | 0 <= i < Min(limit, |s|)
      ensures s[i] == Newest(history, i)
    {
      NewestFirst(history, slots, i);
    }
  }

  lemma {:induction false} AllKept(s: seq<Record>)
    ensures Kept(s, r => true) == s
  {
    if s != [] { AllKept(s[..|s| - 1]); }
  }

  /** A logged event can be skipped for its number exactly when 2^32 divides its place; no event
      is while fewer than 2^32 were logged. */
  lemma SkippedIff(e: Event, n: nat, f: Filter)
    requires n >= 1
    ensures Matches(f, RecordOf(e, n)) <==>
              && n % U32 != 0
              && (f.domain == DOMAIN_ID_INVALID || e.domain == f.domain) && (f.kind == 0 || e.kind == f.kind)
              && (f.start == 0 || e.timestamp >= f.start) && (f.end == 0 || e.timestamp <= f.end)
    ensures n < U32 ==> n % U32 != 0
  {
  }

  /** The two short queries pass just the events of the domain or kind asked for, with the same
      exception. */
  lemma OfIff(e: Event, n: nat, domain: nat, kind: nat)
    ensures OfDomain(RecordOf(e, n), domain) <==> n % U32 != 0 && e.domain == domain
    ensures OfKind(RecordOf(e, n), kind) <==> n % U32 != 0 && e.kind == kind
  {
  }
}
