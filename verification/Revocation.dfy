/** What revocation does to the capability table.

    The first part holds for arbitrary tables, cyclic or stale ones included.  The second part is
    about derivation forests, where the exact set of freed slots has a closed description. */
module Revocation {
  import opened Capability

  // ---------------------------------------------------------------- arbitrary tables

  ghost predicate Distinct(cs: seq<CapId>) {
    cs == [] || (cs[0] !in cs[1..] && Distinct(cs[1..]))
  }

  /** A list has no repeats just when different places hold different values. */
  lemma {:induction false} DistinctPlaces(cs: seq<CapId>)
    ensures Distinct(cs) <==> forall i, j :: 0 <= i < j < |cs| ==> cs[i] != cs[j]
  {
    if cs != [] {
      var tail := cs[1..];
      DistinctPlaces(tail);
      assert forall k :: 0 <= k < |tail| ==> tail[k] == cs[k + 1];
      if Distinct(cs) {
        forall i, j | 0 <= i < j < |cs|
          ensures cs[i] != cs[j]
        {
          assert cs[j] == tail[j - 1];
          if i > 0 { assert cs[i] == tail[i - 1]; }
        }
      } else if cs[0] in tail {
        var k :| 0 <= k < |tail| && tail[k] == cs[0];
        assert cs[0] == cs[k + 1];
      } else {
        var i, j :| 0 <= i < j < |tail| && tail[i] == tail[j];
        assert cs[i + 1] == cs[j + 1];
      }
    }
  }

  /** The retired slots are pairwise different, held unmarked capabilities and are now cleared;
      no other slot of the table changed. */
  ghost predicate Swept(g: Graph, w: Sweep) {
    && 0 !in w.freed && Distinct(w.freed)
    && (forall x :: 0 <= x < CAP_TABLE_SIZE && x in w.freed ==>
                      g.table[x].id == x && !g.table[x].revoked && w.g.table[x] == Cleared(g.table[x]))
    && (forall x :: 0 <= x < CAP_TABLE_SIZE && x !in w.freed ==> w.g.table[x] == g.table[x])
  }

  lemma SweptTwice(g: Graph, w: Sweep, v: Sweep)
    requires Swept(g, w) && Swept(w.g, v)
    ensures Swept(g, Sweep(v.g, w.freed + v.freed))
  {
    assert forall k :: 0 <= k < |v.freed| ==> v.freed[k] !in w.freed;
    DistinctPlaces(w.freed);
    DistinctPlaces(v.freed);
    DistinctPlaces(w.freed + v.freed);
  }

  /** Any table, tangled or cyclic: the walk frees what it reports, itself included, and leaves
      marked slots alone. */
  lemma {:induction false} RevokeFromSweeps(g: Graph, cap: CapId, depth: nat)
    requires cap != 0
    ensures Swept(g, RevokeFrom(g, cap, depth))
    ensures depth <= REVOKE_MAX_DEPTH && Live(g, cap) && !g.table[cap].revoked ==> cap in RevokeFrom(g, cap, depth).freed
    decreases REVOKE_MAX_DEPTH + 1 - depth, MAX_DERIVATIVES + 1
  {
    if depth <= REVOKE_MAX_DEPTH && Live(g, cap) && !g.table[cap].revoked {
      RevokeChildrenSweeps(Mark(g, cap), cap, 0, depth);
      var w := RevokeChildren(Mark(g, cap), cap, 0, depth);
      assert cap !in w.freed;
      DistinctPlaces(w.freed);
      DistinctPlaces(w.freed + [cap]);
    }
  }

  lemma {:induction false} RevokeChildrenSweeps(g: Graph, cap: CapId, i: nat, depth: nat)
    requires 1 <= cap < CAP_TABLE_SIZE && depth <= REVOKE_MAX_DEPTH
    ensures Swept(g, RevokeChildren(g, cap, i, depth))
    decreases REVOKE_MAX_DEPTH + 1 - depth, MAX_DERIVATIVES - i
  {
    hide Swept, RevokeFrom;
    if i < |g.links[cap].children| && i < MAX_DERIVATIVES {
      var child := g.links[cap].children[i];
      if child != HIC_CAP_INVALID && child < CAP_TABLE_SIZE && !g.table[child].revoked {
        var w := RevokeFrom(g, child, depth + 1);
        RevokeFromSweeps(g, child, depth + 1);
        RevokeChildrenSweeps(w.g, cap, i + 1, depth);
        SweptTwice(g, w, RevokeChildren(w.g, cap, i + 1, depth));
      } else {
        RevokeChildrenSweeps(g, cap, i + 1, depth);
      }
    } else {
      SweptNothing(g);
    }
  }

  lemma SweptNothing(g: Graph)
    ensures Swept(g, Sweep(g, []))
  {
  }

  // ---------------------------------------------------------------- derivation forests

  /** `c` is recorded as a child of `p`. */
  predicate Listed(g: Graph, p: CapId, c: CapId)
  {
    1 <= p < CAP_TABLE_SIZE && c in g.links[p].children
  }

  /** The recorded links form a forest, with `rank` growing from parent to child.  A listed child
      is live and points back; lists have no repeats; a free slot has no links at all. */
  ghost predicate ForestBy(g: Graph, rank: CapId -> nat)
  {
    && (forall p: CapId, c: CapId :: Listed(g, p, c) ==>
                         Live(g, p) && Live(g, c) && g.links[c].parent == p && rank(p) < rank(c))
    && (forall p :: 1 <= p < CAP_TABLE_SIZE ==>
                      Distinct(g.links[p].children) && |g.links[p].children| <= MAX_DERIVATIVES)
    && (forall p :: 1 <= p < CAP_TABLE_SIZE && !Live(g, p) ==> g.links[p] == Link(0, []))
  }

  function FirstHalf(cs: seq<CapId>): seq<CapId> {
    cs[..(|cs| + 1) / 2]
  }

  /** The slots a revocation reaches: the node and, through depth 16, the first half of every list. */
  function Doomed(g: Graph, cap: CapId, depth: nat): set<CapId>
    decreases REVOKE_MAX_DEPTH + 1 - depth, 0
  {
    if depth > REVOKE_MAX_DEPTH || cap >= CAP_TABLE_SIZE then {}
    else {cap} + DoomedAll(g, FirstHalf(g.links[cap].children), depth + 1)
  }

  function DoomedAll(g: Graph, cs: seq<CapId>, depth: nat): set<CapId>
    decreases REVOKE_MAX_DEPTH + 1 - depth, 1, |cs|
  {
    if cs == [] then {} else Doomed(g, cs[0], depth) + DoomedAll(g, cs[1..], depth)
  }

  lemma {:induction false} DoomedAllMember(g: Graph, cs: seq<CapId>, depth: nat, x: CapId)
    ensures x in DoomedAll(g, cs, depth) <==> exists c :: c in cs && x in Doomed(g, c, depth)
    decreases |cs|
  {
    if cs != [] {
      DoomedAllMember(g, cs[1..], depth, x);
      assert forall c :: c in cs <==> c == cs[0] || c in cs[1..];
      if x in Doomed(g, cs[0], depth) { assert cs[0] in cs; }
    }
  }

  /** A doomed slot is live, not above the root, and unless it is the root it stands in the first
      half of the list of a doomed parent. */
  lemma {:induction false} DoomedFacts(g: Graph, rank: CapId -> nat, cap: CapId, depth: nat, x: CapId)
    requires ForestBy(g, rank) && Live(g, cap)
    requires x in Doomed(g, cap, depth)
    ensures Live(g, x) && rank(cap) <= rank(x)
    ensures x != cap ==>
              && rank(cap) < rank(x)
              && g.links[x].parent in Doomed(g, cap, depth)
              && Listed(g, g.links[x].parent, x)
              && x in FirstHalf(g.links[g.links[x].parent].children)
    decreases REVOKE_MAX_DEPTH + 1 - depth
  {
    hide Distinct, DoomedAll;
    if x != cap {
      var half := FirstHalf(g.links[cap].children);
      DoomedAllMember(g, half, depth + 1, x);
      var c :| c in half && x in Doomed(g, c, depth + 1);
      assert Listed(g, cap, c);
      DoomedFacts(g, rank, c, depth + 1, x);
      if x != c {
        DoomedAllMember(g, half, depth + 1, g.links[x].parent);
      }
    }
  }

  /** Subtrees below two different children of one parent do not meet. */
  lemma {:induction false} SiblingsApart(g: Graph, rank: CapId -> nat, p: CapId, c: CapId, d: CapId, depth: nat, x: CapId)
    requires ForestBy(g, rank)
    requires Listed(g, p, c) && Listed(g, p, d) && c != d
    ensures !(x in Doomed(g, c, depth) && x in Doomed(g, d, depth))
    decreases rank(x)
  {
    if x in Doomed(g, c, depth) && x in Doomed(g, d, depth) {
      DoomedFacts(g, rank, c, depth, x);
      DoomedFacts(g, rank, d, depth, x);
      if x == c {
        DoomedFacts(g, rank, d, depth, g.links[c].parent);
      } else if x == d {
        DoomedFacts(g, rank, c, depth, g.links[d].parent);
      } else {
        SiblingsApart(g, rank, p, c, d, depth, g.links[x].parent);
      }
    }
  }

  /** `Doomed` looks only at the child lists of the slots it contains. */
  lemma {:induction false} DoomedFrame(g: Graph, h: Graph, cap: CapId, depth: nat)
    requires forall x :: x in Doomed(g, cap, depth) && x < CAP_TABLE_SIZE ==>
                           h.links[x].children == g.links[x].children
    ensures Doomed(h, cap, depth) == Doomed(g, cap, depth)
    decreases REVOKE_MAX_DEPTH + 1 - depth, 0
  {
    if depth <= REVOKE_MAX_DEPTH && cap < CAP_TABLE_SIZE {
      DoomedAllFrame(g, h, FirstHalf(g.links[cap].children), depth + 1);
    }
  }

  lemma {:induction false} DoomedAllFrame(g: Graph, h: Graph, cs: seq<CapId>, depth: nat)
    requires forall x :: x in DoomedAll(g, cs, depth) && x < CAP_TABLE_SIZE ==>
                           h.links[x].children == g.links[x].children
    ensures DoomedAll(h, cs, depth) == DoomedAll(g, cs, depth)
    decreases REVOKE_MAX_DEPTH + 1 - depth, 1, |cs|
  {
    if cs != [] {
      DoomedFrame(g, h, cs[0], depth);
      DoomedAllFrame(g, h, cs[1..], depth);
    }
  }

  lemma SwapRemoveFacts(cs: seq<CapId>, c: CapId)
    requires Distinct(cs)
    ensures Distinct(SwapRemove(cs, c))
    ensures forall x :: x in SwapRemove(cs, c) <==> x in cs && x != c
  {
    var i := IndexOf(cs, c);
    var r := SwapRemove(cs, c);
    DistinctPlaces(cs);
    DistinctPlaces(r);
    if i < |cs| {
      forall x | x in cs && x != c
        ensures x in r
      {
        var j :| 0 <= j < |cs| && cs[j] == x;
        if j == |cs| - 1 { assert r[i] == x; } else { assert r[j] == x; }
      }
    }
  }

  /** Clear every slot of `gone`, capability and links. */
  function Erase(g: Graph, gone: set<CapId>): Graph {
    Slots(seq(CAP_TABLE_SIZE, x requires 0 <= x < CAP_TABLE_SIZE => if x in gone then Cleared(g.table[x]) else g.table[x]),
          seq(CAP_TABLE_SIZE, x requires 0 <= x < CAP_TABLE_SIZE => if x in gone then Link(0, []) else g.links[x]))
  }

  /** Take `cap` out of the list of its parent. */
  function Detach(g: Graph, cap: CapId): Graph
    requires cap < CAP_TABLE_SIZE
  {
    g.(links := Unlink(g.links, cap))
  }

  function SetChildren(g: Graph, p: CapId, cs: seq<CapId>): Graph
    requires p < CAP_TABLE_SIZE
  {
    g.(links := g.links[p := g.links[p].(children := cs)])
  }

  /** Erasing a set that is closed under children-in-the-set, apart from one detached root, keeps
      the forest. */
  lemma EraseForest(g: Graph, rank: CapId -> nat, cap: CapId, gone: set<CapId>)
    requires ForestBy(g, rank) && Live(g, cap)
    requires forall x :: x in gone && x != cap ==> Live(g, x) && g.links[x].parent in gone
    ensures ForestBy(Erase(Detach(g, cap), gone + {cap}), rank)
  {
    var h := Erase(Detach(g, cap), gone + {cap});
    var p := g.links[cap].parent;
    if 1 <= p < CAP_TABLE_SIZE {
      SwapRemoveFacts(g.links[p].children, cap);
    }
    forall q: CapId, c: CapId | Listed(h, q, c)
      ensures Live(h, q) && Live(h, c) && h.links[c].parent == q && rank(q) < rank(c)
    {
      assert Listed(g, q, c);
    }
    forall q | 1 <= q < CAP_TABLE_SIZE
      ensures Distinct(h.links[q].children) && |h.links[q].children| <= MAX_DERIVATIVES
      ensures !Live(h, q) ==> h.links[q] == Link(0, [])
    {
      if q !in gone && q != cap {
        assert Live(h, q) == Live(g, q);
      }
    }
  }

  /** A forest is a matter of ids and links only. */
  lemma MarkForest(g: Graph, rank: CapId -> nat, cap: CapId)
    requires ForestBy(g, rank) && cap < CAP_TABLE_SIZE
    ensures ForestBy(Mark(g, cap), rank)
  {
    assert forall x :: Live(Mark(g, cap), x) == Live(g, x);
    assert forall p: CapId, c: CapId :: Listed(Mark(g, cap), p, c) == Listed(g, p, c);
  }

  /** The nodes marked so far all lie above the bound. */
  ghost predicate MarkedAbove(g: Graph, rank: CapId -> nat, bound: nat) {
    forall x :: 0 <= x < CAP_TABLE_SIZE && g.table[x].revoked ==> rank(x) < bound
  }

  /** Exactness on a forest: a revocation detaches the node and erases the doomed slots, and does
      nothing else to the tables. */
  lemma {:induction false} RevokeFromExact(g: Graph, rank: CapId -> nat, cap: CapId, depth: nat)
    requires ForestBy(g, rank) && Live(g, cap) && depth <= REVOKE_MAX_DEPTH
    requires MarkedAbove(g, rank, rank(cap)) && !g.table[cap].revoked
    ensures RevokeFrom(g, cap, depth).g == Erase(Detach(g, cap), Doomed(g, cap, depth))
    decreases REVOKE_MAX_DEPTH + 1 - depth, MAX_DERIVATIVES + 1
  {
    hide Erase, Detach, SetChildren, SwapRemove, Unlink, Retire, Distinct, DoomedAll;
    var marked, cs := Mark(g, cap), g.links[cap].children;
    var half, mid := FirstHalf(cs), RevokeChildren(marked, cap, 0, depth).g;
    if depth == REVOKE_MAX_DEPTH {
      TooDeep(marked, cap, 0);
      DoomedAllTooDeep(g, half);
      EraseNothing(marked, cap);
      RetireErase(g, cap, cs, {});
    } else {
      assert AtIndex(marked, rank, cap, cs, 0) by { MarkForest(g, rank, cap); }
      assert ToVisit(cs, 0) == half;
      ChildrenExact(marked, rank, cap, cs, 0, depth);
      DoomedAllFrame(g, marked, half, depth + 1);
      RetireErase(g, cap, mid.links[cap].children, DoomedAll(g, half, depth + 1));
    }
  }

  /** Below the depth limit the walk touches nothing. */
  lemma {:induction false} TooDeep(g: Graph, cap: CapId, i: nat)
    requires cap < CAP_TABLE_SIZE
    ensures RevokeChildren(g, cap, i, REVOKE_MAX_DEPTH).g == g
    decreases MAX_DERIVATIVES - i
  {
    if i < |g.links[cap].children| && i < MAX_DERIVATIVES {
      TooDeep(g, cap, i + 1);
    }
  }

  lemma {:induction false} DoomedAllTooDeep(g: Graph, cs: seq<CapId>)
    ensures DoomedAll(g, cs, REVOKE_MAX_DEPTH + 1) == {}
    decreases |cs|
  {
    if cs != [] {
      DoomedAllTooDeep(g, cs[1..]);
    }
  }

  /** The closing steps on `cap`, once the child loop has cleared `below`. */
  lemma RetireErase(g: Graph, cap: CapId, cs: seq<CapId>, below: set<CapId>)
    requires 1 <= cap < CAP_TABLE_SIZE && cap !in below
    ensures Retire(Erase(SetChildren(Mark(g, cap), cap, cs), below), cap) == Erase(Detach(g, cap), {cap} + below)
  {
    var mid := Erase(SetChildren(Mark(g, cap), cap, cs), below);
    assert Retire(mid, cap).table == Erase(Detach(g, cap), {cap} + below).table;
    forall x | 0 <= x < CAP_TABLE_SIZE
      ensures Retire(mid, cap).links[x] == Erase(Detach(g, cap), {cap} + below).links[x]
    {
      if x in below { assert SwapRemove([], cap) == []; }
    }
  }

  /** The child list as the loop finds it at index `i`, after `i` children were swap-removed. */
  function Walked(cs: seq<CapId>, i: nat): seq<CapId>
    requires i <= |cs|
  {
    if i == 0 then cs else SwapRemove(Walked(cs, i - 1), cs[i - 1])
  }

  /** Every removal moves the last child to the front part, which the loop has passed already;
      the middle is still in place. */
  lemma {:induction false} WalkedShape(cs: seq<CapId>, i: nat)
    requires Distinct(cs) && 2 * i <= |cs| + 1
    ensures |Walked(cs, i)| == |cs| - i
    ensures forall j {:trigger Walked(cs, i)[j]} :: i <= j < |cs| - i ==> Walked(cs, i)[j] == cs[j]
    ensures forall j {:trigger Walked(cs, i)[j]} :: 0 <= j < i && j < |cs| - i ==> Walked(cs, i)[j] == cs[|cs| - 1 - j]
  {
    hide SwapRemove, Distinct;
    if i > 0 {
      WalkedShape(cs, i - 1);
      DistinctPlaces(cs);
      var now := Walked(cs, i - 1);
      assert now[i - 1] == cs[i - 1];
      assert forall k :: 0 <= k < i - 1 ==> now[k] != cs[i - 1];
      RemoveAt(now, i - 1);
    }
  }

  lemma RemoveAt(cs: seq<CapId>, i: nat)
    requires i < |cs| && forall k :: 0 <= k < i ==> cs[k] != cs[i]
    ensures SwapRemove(cs, cs[i]) == cs[i := cs[|cs| - 1]][..|cs| - 1]
  {
  }

  /** The children the loop still has to visit: it stops at the middle of the original list. */
  function ToVisit(cs: seq<CapId>, i: nat): seq<CapId>
    requires 2 * i <= |cs| + 1
  {
    cs[i..(|cs| + 1) / 2]
  }

  lemma ToVisitStep(cs: seq<CapId>, i: nat)
    requires Distinct(cs) && 2 * i < |cs|
    ensures |Walked(cs, i)| == |cs| - i && Walked(cs, i)[i] == cs[i]
    ensures ToVisit(cs, i) == [cs[i]] + ToVisit(cs, i + 1)
    ensures forall d :: d in ToVisit(cs, i + 1) ==> d in Walked(cs, i) && d != cs[i]
  {
    hide Walked, Distinct;
    WalkedShape(cs, i);
    DistinctPlaces(cs);
    var now, mid := Walked(cs, i), (|cs| + 1) / 2;
    forall d | d in cs[i + 1..mid]
      ensures d in now && d != cs[i]
    {
      var j :| i + 1 <= j < mid && cs[j] == d;
      assert now[j] == d;
    }
  }

  /** The situation in which the child loop of `cap` stands at index `i`. */
  ghost predicate AtIndex(g: Graph, rank: CapId -> nat, cap: CapId, cs: seq<CapId>, i: nat) {
    && ForestBy(g, rank) && Live(g, cap) && MarkedAbove(g, rank, rank(cap) + 1)
    && Distinct(cs) && 2 * i <= |cs| + 1 <= MAX_DERIVATIVES + 1 && g.links[cap].children == Walked(cs, i)
  }

  /** The child loop at a depth where its calls still act: from index `i` on it erases exactly what
      is doomed below the first-half children not visited yet, and edits only the list it walks. */
  lemma {:induction false} ChildrenExact(g: Graph, rank: CapId -> nat, cap: CapId, cs: seq<CapId>, i: nat, depth: nat)
    requires AtIndex(g, rank, cap, cs, i) && depth < REVOKE_MAX_DEPTH
    ensures var h := RevokeChildren(g, cap, i, depth).g;
            h == Erase(SetChildren(g, cap, h.links[cap].children), DoomedAll(g, ToVisit(cs, i), depth + 1))
    ensures cap !in DoomedAll(g, ToVisit(cs, i), depth + 1)
    decreases REVOKE_MAX_DEPTH + 1 - depth, MAX_DERIVATIVES - i, 1
  {
    hide Doomed, Erase, Detach, SwapRemove, Unlink, SetChildren, Walked, ToVisit, Distinct, ForestBy, MarkedAbove;
    assert |Walked(cs, i)| == |cs| - i by { WalkedShape(cs, i); }
    if 2 * i >= |cs| {
      EraseNothing(g, cap);
      assert ToVisit(cs, i) == [] by { ToVisitEnd(cs, i); }
    } else {
      var c, rest := cs[i], ToVisit(cs, i + 1);
      LoopAdvances(g, rank, cap, cs, i, depth);
      ListedPointsBack(g, rank, cap, c);
      NextIndex(g, rank, cap, cs, i, depth + 1);
      var next := Erase(Detach(g, c), Doomed(g, c, depth + 1));
      ChildrenExact(next, rank, cap, cs, i + 1, depth);
      ToVisitStep(cs, i);
      assert ([c] + rest)[1..] == rest;
      RestUntouched(g, rank, cap, c, rest, depth + 1);
      EraseTwice(g, cap, c, Doomed(g, c, depth + 1), RevokeChildren(next, cap, i + 1, depth).g.links[cap].children,
                 DoomedAll(g, rest, depth + 1));
    }
  }

  lemma ListedPointsBack(g: Graph, rank: CapId -> nat, p: CapId, c: CapId)
    requires ForestBy(g, rank) && Listed(g, p, c)
    ensures c < CAP_TABLE_SIZE && g.links[c].parent == p
  {
    hide Distinct;
  }

  lemma ToVisitEnd(cs: seq<CapId>, i: nat)
    requires |cs| <= 2 * i <= |cs| + 1
    ensures ToVisit(cs, i) == []
  {
  }

  lemma EraseNothing(g: Graph, cap: CapId)
    requires cap < CAP_TABLE_SIZE
    ensures g == Erase(SetChildren(g, cap, g.links[cap].children), {})
  {
    var h := Erase(SetChildren(g, cap, g.links[cap].children), {});
    assert g.table == h.table && g.links == h.links;
  }

  /** One turn of the child loop is one exact revocation. */
  lemma {:induction false} LoopAdvances(g: Graph, rank: CapId -> nat, cap: CapId, cs: seq<CapId>, i: nat, depth: nat)
    requires AtIndex(g, rank, cap, cs, i) && depth < REVOKE_MAX_DEPTH && 2 * i < |cs|
    ensures Listed(g, cap, cs[i])
    ensures var next := Erase(Detach(g, cs[i]), Doomed(g, cs[i], depth + 1));
            RevokeChildren(g, cap, i, depth).g == RevokeChildren(next, cap, i + 1, depth).g
    decreases REVOKE_MAX_DEPTH + 1 - depth, MAX_DERIVATIVES - i, 0
  {
    hide Doomed, Erase, Detach, ToVisit, SwapRemove, Unlink;
    ToVisitStep(cs, i);
    assert g.links[cap].children[i] == cs[i] && Listed(g, cap, cs[i]);
    RevokeFromExact(g, rank, cs[i], depth + 1);
  }

  lemma NextIndex(g: Graph, rank: CapId -> nat, cap: CapId, cs: seq<CapId>, i: nat, depth: nat)
    requires AtIndex(g, rank, cap, cs, i) && depth <= REVOKE_MAX_DEPTH && 2 * i < |cs|
    ensures Listed(g, cap, cs[i]) && cap !in Doomed(g, cs[i], depth)
    ensures AtIndex(Erase(Detach(g, cs[i]), Doomed(g, cs[i], depth)), rank, cap, cs, i + 1)
  {
    ToVisitStep(cs, i);
    assert g.links[cap].children[i] == cs[i];
    ChildErased(g, rank, cap, cs[i], depth);
  }

  /** After the call on one child the loop is where it was, one child further. */
  lemma ChildErased(g: Graph, rank: CapId -> nat, cap: CapId, c: CapId, depth: nat)
    requires ForestBy(g, rank) && Listed(g, cap, c) && MarkedAbove(g, rank, rank(cap) + 1)
    requires depth <= REVOKE_MAX_DEPTH
    ensures cap !in Doomed(g, c, depth)
    ensures var next := Erase(Detach(g, c), Doomed(g, c, depth));
            && ForestBy(next, rank) && Live(next, cap) && MarkedAbove(next, rank, rank(cap) + 1)
            && next.links[cap].children == SwapRemove(g.links[cap].children, c)
  {
    var gone := Doomed(g, c, depth);
    forall x | x in gone
      ensures x != cap && Live(g, x) && (x != c ==> g.links[x].parent in gone)
    {
      DoomedFacts(g, rank, c, depth, x);
    }
    EraseForest(g, rank, c, gone);
    assert gone + {c} == gone;
  }

  /** Clearing below one child leaves what is doomed below its siblings as it was. */
  lemma RestUntouched(g: Graph, rank: CapId -> nat, cap: CapId, c: CapId, rest: seq<CapId>, depth: nat)
    requires ForestBy(g, rank) && Listed(g, cap, c) && depth <= REVOKE_MAX_DEPTH
    requires forall d :: d in rest ==> d in g.links[cap].children && d != c
    ensures DoomedAll(Erase(Detach(g, c), Doomed(g, c, depth)), rest, depth) == DoomedAll(g, rest, depth)
  {
    forall x | x in DoomedAll(g, rest, depth)
      ensures x !in Doomed(g, c, depth) && x != cap
    {
      DoomedAllMember(g, rest, depth, x);
      var d :| d in rest && x in Doomed(g, d, depth);
      assert Listed(g, cap, d);
      SiblingsApart(g, rank, cap, c, d, depth, x);
      DoomedFacts(g, rank, d, depth, x);
    }
    DoomedAllFrame(g, Erase(Detach(g, c), Doomed(g, c, depth)), rest, depth);
  }

  /** Erasing below one child and then below the rest is erasing both at once. */
  lemma EraseTwice(g: Graph, cap: CapId, c: CapId, first: set<CapId>, cs: seq<CapId>, rest: set<CapId>)
    requires 1 <= cap < CAP_TABLE_SIZE && c < CAP_TABLE_SIZE && g.links[c].parent == cap && cap !in first
    ensures Erase(SetChildren(Erase(Detach(g, c), first), cap, cs), rest) == Erase(SetChildren(g, cap, cs), first + rest)
  {
  }
}
