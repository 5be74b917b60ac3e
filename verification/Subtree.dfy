/** Revocation measured against the recorded links: when everything recorded below a revoked
    capability stops being valid with it.  What derives from it by history is in History.dfy. */
module Subtree {
  import opened Capability
  import opened Revocation

  /** A walk down the recorded child lists. */
  ghost predicate IsPath(g: Graph, path: seq<CapId>) {
    && |path| >= 1
    && forall k :: 0 <= k < |path| - 1 ==> Listed(g, path[k], path[k + 1])
  }

  ghost predicate PathTo(g: Graph, path: seq<CapId>, cap: CapId, x: CapId) {
    IsPath(g, path) && path[0] == cap && path[|path| - 1] == x
  }

  /** `x` is `cap` or recorded as derived from it, directly or not. */
  ghost predicate Below(g: Graph, cap: CapId, x: CapId) {
    exists path :: PathTo(g, path, cap, x)
  }

  /** Nothing below `cap` is deeper than the recursion limit or has two recorded children. */
  ghost predicate Thin(g: Graph, cap: CapId) {
    forall path: seq<CapId> :: IsPath(g, path) && path[0] == cap && path[|path| - 1] < CAP_TABLE_SIZE ==>
                   |path| <= REVOKE_MAX_DEPTH + 1 && |g.links[path[|path| - 1]].children| <= 1
  }

  lemma {:induction false} RankGrows(g: Graph, rank: CapId -> nat, path: seq<CapId>)
    requires ForestBy(g, rank) && IsPath(g, path)
    ensures rank(path[0]) + |path| - 1 <= rank(path[|path| - 1])
  {
    hide Distinct;
    if |path| > 1 {
      var front := path[..|path| - 1];
      RankGrows(g, rank, front);
      assert Listed(g, path[|path| - 2], path[|path| - 1]);
    }
  }

  /** In a forest there is one way down to a slot. */
  lemma {:induction false} PathUnique(g: Graph, rank: CapId -> nat, p: seq<CapId>, q: seq<CapId>)
    requires ForestBy(g, rank) && IsPath(g, p) && IsPath(g, q)
    requires p[0] == q[0] && p[|p| - 1] == q[|q| - 1]
    ensures p == q
    decreases |p|
  {
    hide Distinct;
    RankGrows(g, rank, p);
    RankGrows(g, rank, q);
    if |p| > 1 && |q| > 1 {
      assert Listed(g, p[|p| - 2], p[|p| - 1]) && Listed(g, q[|q| - 2], q[|q| - 1]);
      PathUnique(g, rank, p[..|p| - 1], q[..|q| - 1]);
      assert p == p[..|p| - 1] + [p[|p| - 1]] && q == q[..|q| - 1] + [q[|q| - 1]];
    }
  }

  /** Everything doomed is reached by a walk that the depth limit still admits. */
  lemma {:induction false} DoomedPath(g: Graph, cap: CapId, depth: nat, x: CapId) returns (path: seq<CapId>)
    requires 1 <= cap && 0 !in Doomed(g, cap, depth) && x in Doomed(g, cap, depth)
    ensures PathTo(g, path, cap, x) && |path| + depth <= REVOKE_MAX_DEPTH + 1
    decreases REVOKE_MAX_DEPTH + 1 - depth
  {
    hide DoomedAll;
    if x == cap {
      path := [cap];
    } else {
      var half := FirstHalf(g.links[cap].children);
      DoomedAllMember(g, half, depth + 1, x);
      var c :| c in half && x in Doomed(g, c, depth + 1);
      DoomedAllMember(g, half, depth + 1, 0);
      DoomedAllMember(g, half, depth + 1, c);
      assert depth + 1 <= REVOKE_MAX_DEPTH;
      if c >= CAP_TABLE_SIZE { assert false; }
      assert c in Doomed(g, c, depth + 1);
      var rest := DoomedPath(g, c, depth + 1, x);
      path := [cap] + rest;
      assert Listed(g, cap, c);
    }
  }

  /** Where every list on the way has at most one child, the walk reaches the end of the path. */
  lemma {:induction false} ThinPathDoomed(g: Graph, path: seq<CapId>, depth: nat)
    requires IsPath(g, path) && |path| + depth <= REVOKE_MAX_DEPTH + 1
    requires forall k :: 0 <= k < |path| ==> 1 <= path[k] < CAP_TABLE_SIZE && |g.links[path[k]].children| <= 1
    ensures path[|path| - 1] in Doomed(g, path[0], depth)
    decreases |path|
  {
    hide DoomedAll;
    if |path| > 1 {
      var tail := path[1..];
      assert forall k :: 0 <= k < |tail| ==> tail[k] == path[k + 1];
      ThinPathDoomed(g, tail, depth + 1);
      assert Listed(g, path[0], path[1]);
      DoomedAllMember(g, FirstHalf(g.links[path[0]].children), depth + 1, path[|path| - 1]);
    }
  }

  /** Nothing outside the recorded subtree is freed. */
  lemma FreedIsBelow(g: Graph, rank: CapId -> nat, cap: CapId, x: CapId)
    requires ForestBy(g, rank) && Live(g, cap) && x in Doomed(g, cap, 0)
    ensures Below(g, cap, x)
  {
    if 0 in Doomed(g, cap, 0) { DoomedFacts(g, rank, cap, 0, 0); }
    var path := DoomedPath(g, cap, 0, x);
  }

  /** The promise is kept where the subtree is thin... */
  lemma ThinIsFreed(g: Graph, rank: CapId -> nat, cap: CapId, x: CapId)
    requires ForestBy(g, rank) && Live(g, cap) && Thin(g, cap) && Below(g, cap, x)
    ensures x in Doomed(g, cap, 0)
  {
    hide Doomed, Distinct;
    var path :| PathTo(g, path, cap, x);
    forall k | 0 <= k < |path|
      ensures 1 <= path[k] < CAP_TABLE_SIZE && |g.links[path[k]].children| <= 1
    {
      if k > 0 { assert Listed(g, path[k - 1], path[k]); }
      var prefix := path[..k + 1];
      assert IsPath(g, prefix) && prefix[0] == cap && prefix[|prefix| - 1] == path[k];
    }
    assert path[..|path|] == path;
    ThinPathDoomed(g, path, 0);
  }

  /** ...and only there: otherwise something below survives. */
  lemma ThickSurvives(g: Graph, rank: CapId -> nat, cap: CapId) returns (x: CapId)
    requires ForestBy(g, rank) && Live(g, cap) && !Thin(g, cap)
    ensures Below(g, cap, x) && x !in Doomed(g, cap, 0)
  {
    hide Doomed, Distinct;
    var path: seq<CapId> :| IsPath(g, path) && path[0] == cap && path[|path| - 1] < CAP_TABLE_SIZE
      && !(|path| <= REVOKE_MAX_DEPTH + 1 && |g.links[path[|path| - 1]].children| <= 1);
    if |path| > REVOKE_MAX_DEPTH + 1 {
      x := DeepSurvives(g, rank, cap, path);
    } else {
      x := WideSurvives(g, rank, cap, path);
    }
  }

  lemma DeepSurvives(g: Graph, rank: CapId -> nat, cap: CapId, path: seq<CapId>) returns (x: CapId)
    requires ForestBy(g, rank) && Live(g, cap) && IsPath(g, path) && path[0] == cap
    requires |path| > REVOKE_MAX_DEPTH + 1
    ensures Below(g, cap, x) && x !in Doomed(g, cap, 0)
  {
    hide Doomed, Distinct;
    var cut := path[..REVOKE_MAX_DEPTH + 2];
    x := cut[REVOKE_MAX_DEPTH + 1];
    assert PathTo(g, cut, cap, x);
    if x in Doomed(g, cap, 0) {
      if 0 in Doomed(g, cap, 0) { DoomedFacts(g, rank, cap, 0, 0); }
      var short := DoomedPath(g, cap, 0, x);
      PathUnique(g, rank, cut, short);
    }
  }

  lemma WideSurvives(g: Graph, rank: CapId -> nat, cap: CapId, path: seq<CapId>) returns (x: CapId)
    requires ForestBy(g, rank) && Live(g, cap) && IsPath(g, path) && path[0] == cap
    requires path[|path| - 1] < CAP_TABLE_SIZE && |g.links[path[|path| - 1]].children| > 1
    ensures Below(g, cap, x) && x !in Doomed(g, cap, 0)
  {
    hide Doomed, Distinct;
    var p := path[|path| - 1];
    assert p >= 1 by { if |path| > 1 { assert Listed(g, path[|path| - 2], p); } }
    var cs := g.links[p].children;
    x := cs[|cs| - 1];
    assert Listed(g, p, x);
    var longer := path + [x];
    assert PathTo(g, longer, cap, x);
    RankGrows(g, rank, longer);
    if x in Doomed(g, cap, 0) {
      DoomedFacts(g, rank, cap, 0, x);
      DistinctPlaces(cs);
    }
  }

  /** Revoking `cap` leaves nothing recorded below it alive if and only if its subtree is thin. */
  lemma WholeSubtreeFreedIff(g: Graph, rank: CapId -> nat, cap: CapId)
    requires ForestBy(g, rank) && Live(g, cap) && (forall x :: 0 <= x < CAP_TABLE_SIZE ==> !g.table[x].revoked)
    ensures (forall x: CapId :: Below(g, cap, x) ==> !Live(RevokeFrom(g, cap, 0).g, x)) <==> Thin(g, cap)
  {
    hide Doomed, Distinct, Below, Thin, RevokeFrom, Unlink;
    RevokeFromExact(g, rank, cap, 0);
    if Thin(g, cap) {
      forall x: CapId | Below(g, cap, x)
        ensures !Live(RevokeFrom(g, cap, 0).g, x)
      {
        ThinIsFreed(g, rank, cap, x);
      }
    } else {
      var x := ThickSurvives(g, rank, cap);
      BelowLive(g, rank, cap, x);
      assert Live(RevokeFrom(g, cap, 0).g, x);
    }
  }

  lemma BelowLive(g: Graph, rank: CapId -> nat, cap: CapId, x: CapId)
    requires ForestBy(g, rank) && Live(g, cap) && Below(g, cap, x)
    ensures Live(g, x)
  {
    hide Distinct;
    var path :| PathTo(g, path, cap, x);
    if |path| > 1 { assert Listed(g, path[|path| - 2], x); }
  }

  /** A chain: each member lists exactly the next one, and the last lists nothing. */
  ghost predicate IsChain(g: Graph, chain: seq<CapId>) {
    && |chain| >= 1 && 1 <= chain[0] < CAP_TABLE_SIZE
    && if |chain| == 1 then g.links[chain[0]].children == []
       else g.links[chain[0]].children == [chain[1]] && IsChain(g, chain[1..])
  }

  /** The first `n` members, all of them when there are fewer. */
  function Prefix(chain: seq<CapId>, n: nat): seq<CapId> {
    if |chain| <= n then chain else chain[..n]
  }

  /** From depth `depth` on, a chain loses the members the limit still admits, and no others. */
  lemma {:induction false} ChainLoses(g: Graph, chain: seq<CapId>, depth: nat, x: CapId)
    requires IsChain(g, chain) && depth <= REVOKE_MAX_DEPTH
    ensures x in Doomed(g, chain[0], depth) <==> x in Prefix(chain, REVOKE_MAX_DEPTH + 1 - depth)
    decreases |chain|
  {
    hide Doomed;
    if |chain| == 1 {
      NoChild(g, chain[0], depth, x);
    } else {
      OneChild(g, chain[0], chain[1], depth, x);
      PrefixCons(chain, REVOKE_MAX_DEPTH + 1 - depth, x);
      if depth < REVOKE_MAX_DEPTH { ChainLoses(g, chain[1..], depth + 1, x); }
    }
  }

  lemma NoChild(g: Graph, cap: CapId, depth: nat, x: CapId)
    requires 1 <= cap < CAP_TABLE_SIZE && g.links[cap].children == [] && depth <= REVOKE_MAX_DEPTH
    ensures x in Doomed(g, cap, depth) <==> x == cap
  {
    DoomedAllMember(g, FirstHalf([]), depth + 1, x);
  }

  lemma OneChild(g: Graph, cap: CapId, child: CapId, depth: nat, x: CapId)
    requires 1 <= cap < CAP_TABLE_SIZE && g.links[cap].children == [child] && depth <= REVOKE_MAX_DEPTH
    ensures x in Doomed(g, cap, depth) <==> x == cap || (depth < REVOKE_MAX_DEPTH && x in Doomed(g, child, depth + 1))
  {
    hide DoomedAll;
    DoomedAllMember(g, FirstHalf([child]), depth + 1, x);
    assert FirstHalf([child]) == [child];
  }

  lemma PrefixCons(chain: seq<CapId>, n: nat, x: CapId)
    requires |chain| > 1 && n >= 1
    ensures x in Prefix(chain, n) <==> x == chain[0] || (n > 1 && x in Prefix(chain[1..], n - 1))
  {
    assert Prefix(chain, n) == [chain[0]] + Prefix(chain[1..], n - 1);
  }

  /** Revoking the head of a chain frees its first 17 members, or all when there are fewer, and
      nothing else in the table. */
  lemma ChainRevoked(g: Graph, rank: CapId -> nat, chain: seq<CapId>, x: CapId)
    requires ForestBy(g, rank) && IsChain(g, chain) && Live(g, chain[0])
    requires forall c :: 0 <= c < CAP_TABLE_SIZE ==> !g.table[c].revoked
    ensures Live(RevokeFrom(g, chain[0], 0).g, x) <==> Live(g, x) && x !in Prefix(chain, REVOKE_MAX_DEPTH + 1)
  {
    hide Doomed, Distinct, Prefix, RevokeFrom, Unlink;
    RevokeFromExact(g, rank, chain[0], 0);
    ChainLoses(g, chain, 0, x);
  }
}
