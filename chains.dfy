/** Link-chain fusion: `join_tracks` and the chain-following loops of
    `TrackManager::merge`, as functions on the tracklet arena. The imperative
    versions in module Manager are proved equal to these. */
module Chains {
  import opened Types

  /** `join_tracks(p, j)`: j's observations appended, in order, to p's; j
      renamed to p and flagged for removal; p takes j's fate. */
  function Joined(a: seq<Tracklet>, p: nat, j: nat): (r: seq<Tracklet>)
    requires p < |a| && j < |a| && p != j
    ensures |r| == |a|
  {
    a[p := a[p].(track := a[p].track + a[j].track, fate := a[j].fate)]
     [j := a[j].(renamedID := p, toRemove := true)]
  }

  /** A join moves observation references, never invents them: if every
      track fit the observation arena before, every track fits after. */
  lemma JoinedFits(a: seq<Tracklet>, objs: seq<TrackObject>, p: nat, j: nat)
    requires ArenaFits(a, objs) && p < |a| && j < |a| && p != j
    ensures ArenaFits(Joined(a, p, j), objs)
  {
    var r := Joined(a, p, j);
    assert IndicesBelow(a[p].track, |objs|) && IndicesBelow(a[j].track, |objs|);
    assert r[p].track == a[p].track + a[j].track;
  }

  /** The link table is keyed by source: every entry of slot `k` joins onto
      `k`, and its target is a slot of the table. */
  predicate Keyed(links: seq<seq<JoinHypothesis>>)
  {
    forall k, m :: 0 <= k < |links| && 0 <= m < |links[k]| ==> links[k][m].first == k && links[k][m].second < |links|
  }

  /** Following first entries from slot `k` reaches a slot with no link
      within `fuel` steps. */
  predicate Ends(links: seq<seq<JoinHypothesis>>, k: nat, fuel: nat)
    requires k < |links|
    decreases fuel
  {
    links[k] == [] || (fuel > 0 && links[k][0].second < |links| && Ends(links, links[k][0].second, fuel - 1))
  }

  /** No slot after `k` on its chain, within `fuel` steps, is `x`. */
  predicate Avoids(links: seq<seq<JoinHypothesis>>, k: nat, x: nat, fuel: nat)
    requires k < |links|
    decreases fuel
  {
    links[k] == [] || fuel == 0 ||
      (links[k][0].second != x && (links[k][0].second < |links| ==> Avoids(links, links[k][0].second, x, fuel - 1)))
  }

  /** The links form no cycle: from every slot the chain ends within
      |links| steps and never comes back to where it started. */
  predicate Acyclic(links: seq<seq<JoinHypothesis>>)
  {
    forall k :: 0 <= k < |links| ==> Ends(links, k, |links|) && Avoids(links, k, k, |links|)
  }

  /** The state the chain loops carry: the arena and the `used` set. */
  datatype ChainState = ChainState(tracklets: seq<Tracklet>, used: set<nat>)

  /** The inner `while`: as long as the current tail `child` links on, join
      its target onto `head` and mark the target used. */
  function FollowChain(links: seq<seq<JoinHypothesis>>, a: seq<Tracklet>, used: set<nat>,
                       head: nat, child: nat, fuel: nat): (s: ChainState)
    requires Keyed(links) && |links| <= |a| && head < |links| && child < |links|
    requires Ends(links, child, fuel) && Avoids(links, child, head, fuel)
    ensures |s.tracklets| == |a|
    decreases fuel
  {
    if links[child] == [] then ChainState(a, used)
    else
      var next := links[child][0].second;
      FollowChain(links, Joined(a, head, next), used + {next}, head, next, fuel - 1)
  }

  /** One turn of the outer `for` at slot `i`: a slot with a link that is
      not yet used starts a chain, whose head is the slot's own tracklet;
      any other slot changes nothing. */
  function Turn(links: seq<seq<JoinHypothesis>>, a: seq<Tracklet>, used: set<nat>, i: nat): (s: ChainState)
    requires Keyed(links) && Acyclic(links) && |links| <= |a| && i < |links|
    ensures |s.tracklets| == |a|
  {
    if links[i] != [] && i !in used then
      assert Ends(links, i, |links|) && Avoids(links, i, i, |links|);
      var head := links[i][0].first;
      var child := links[i][0].second;
      FollowChain(links, Joined(a, head, child), used + {i} + {child}, head, child, |links| - 1)
    else ChainState(a, used)
  }

  /** The outer `for` from slot `i` on. */
  function MergeFrom(links: seq<seq<JoinHypothesis>>, a: seq<Tracklet>, used: set<nat>, i: nat): (s: ChainState)
    requires Keyed(links) && Acyclic(links) && |links| <= |a| && i <= |links|
    ensures |s.tracklets| == |a|
    decreases |links| - i
  {
    if i == |links| then ChainState(a, used)
    else
      var s := Turn(links, a, used, i);
      MergeFrom(links, s.tracklets, s.used, i + 1)
  }

  /** The observations of the tracklets `c`, concatenated in that order. */
  function ChainTrack(a: seq<Tracklet>, c: seq<nat>): seq<nat>
    requires IndicesBelow(c, |a|)
    decreases |c|
  {
    if c == [] then [] else ChainTrack(a, c[..|c| - 1]) + a[c[|c| - 1]].track
  }

  /** `c` is a simple chain of links: distinct slots, each linking to the
      next, the last linking nowhere. */
  predicate IsChain(links: seq<seq<JoinHypothesis>>, c: seq<nat>)
  {
    && 2 <= |c|
    && IndicesBelow(c, |links|)
    && Distinct(c)
    && (forall m :: 0 <= m < |c| - 1 ==> links[c[m]] != [] && links[c[m]][0].second == c[m + 1])
    && links[c[|c| - 1]] == []
  }

  /** `c` is a whole chain on its own: only its members link into it,
      nothing links into its head, and the head has the lowest ID. */
  predicate IsolatedChain(links: seq<seq<JoinHypothesis>>, c: seq<nat>)
  {
    && IsChain(links, c)
    && (forall k :: 0 <= k < |links| && links[k] != [] && links[k][0].second in c ==>
          k in c && links[k][0].second != c[0])
    && (forall m :: 1 <= m < |c| ==> c[0] < c[m])
  }

  /** The members of `c` are as in `a0`, and none is used yet. */
  predicate Untouched(a0: seq<Tracklet>, a: seq<Tracklet>, used: set<nat>, c: seq<nat>)
  {
    && IndicesBelow(c, |a0|) && |a| == |a0|
    && forall m :: 0 <= m < |c| ==> a[c[m]] == a0[c[m]] && c[m] !in used
  }

  /** The members up to `c[m]` have been joined onto the head `c[0]`, the
      rest are as in `a0`, and all up to `c[m]` are used. */
  predicate JoinedUpTo(a0: seq<Tracklet>, a: seq<Tracklet>, used: set<nat>, c: seq<nat>, m: nat)
  {
    && IndicesBelow(c, |a0|) && |a| == |a0| && 1 <= m < |c|
    && a[c[0]].track == ChainTrack(a0, c[..m + 1])
    && a[c[0]].fate == a0[c[m]].fate
    && a[c[0]].toRemove == a0[c[0]].toRemove
    && (forall l :: 1 <= l <= m ==> a[c[l]].toRemove && a[c[l]].renamedID == c[0])
    && (forall l :: m < l < |c| ==> a[c[l]] == a0[c[l]])
    && (forall l :: 0 <= l <= m ==> c[l] in used)
  }

  /** A chain started outside an isolated chain `c` never reaches it. */
  lemma {:induction false} FollowChainOutside(links: seq<seq<JoinHypothesis>>, c: seq<nat>, a: seq<Tracklet>,
                                              used: set<nat>, head: nat, child: nat, fuel: nat)
    requires Keyed(links) && |links| <= |a| && head < |links| && child < |links|
    requires Ends(links, child, fuel) && Avoids(links, child, head, fuel)
    requires IsolatedChain(links, c) && head !in c && child !in c
    ensures forall m :: 0 <= m < |c| ==>
      && FollowChain(links, a, used, head, child, fuel).tracklets[c[m]] == a[c[m]]
      && (c[m] in FollowChain(links, a, used, head, child, fuel).used <==> c[m] in used)
    decreases fuel
  {
    if links[child] != [] {
      var next := links[child][0].second;
      FollowChainOutside(links, c, Joined(a, head, next), used + {next}, head, next, fuel - 1);
    }
  }

  /** The inner loop run from member `c[m]` of a chain whose members up to
      `c[m]` are joined onto `c[0]` joins the rest of the chain. */
  lemma {:induction false} FollowChainAlong(links: seq<seq<JoinHypothesis>>, c: seq<nat>, a0: seq<Tracklet>,
                                            a: seq<Tracklet>, used: set<nat>, m: nat, fuel: nat)
    requires Keyed(links) && |links| <= |a| && IsChain(links, c) && 1 <= m < |c|
    requires Ends(links, c[m], fuel) && Avoids(links, c[m], c[0], fuel)
    requires JoinedUpTo(a0, a, used, c, m)
    ensures JoinedUpTo(a0, FollowChain(links, a, used, c[0], c[m], fuel).tracklets,
                       FollowChain(links, a, used, c[0], c[m], fuel).used, c, |c| - 1)
    decreases |c| - m
  {
    if m < |c| - 1 {
      var next := c[m + 1];
      var a' := Joined(a, c[0], next);
      assert c[..m + 2][..m + 1] == c[..m + 1];
      assert JoinedUpTo(a0, a', used + {next}, c, m + 1);
      FollowChainAlong(links, c, a0, a', used + {next}, m + 1, fuel - 1);
    } else {
      assert c[..m + 1] == c[..|c|];
    }
  }

  /** Reaching the head of an isolated chain, the outer loop joins the
      whole chain onto it. */
  lemma {:induction false} StartAtHead(links: seq<seq<JoinHypothesis>>, c: seq<nat>, a0: seq<Tracklet>,
                                       a: seq<Tracklet>, used: set<nat>)
    requires Keyed(links) && Acyclic(links) && |links| <= |a| && IsolatedChain(links, c)
    requires Untouched(a0, a, used, c)
    ensures links[c[0]] != [] && c[0] !in used && links[c[0]][0] == JoinHypothesis(c[0], c[1])
    ensures Ends(links, c[1], |links| - 1) && Avoids(links, c[1], c[0], |links| - 1)
    ensures var s := FollowChain(links, Joined(a, c[0], c[1]), used + {c[0]} + {c[1]}, c[0], c[1], |links| - 1);
      JoinedUpTo(a0, s.tracklets, s.used, c, |c| - 1)
  {
    var h := c[0];
    assert Ends(links, h, |links|) && Avoids(links, h, h, |links|);
    var a1 := Joined(a, h, c[1]);
    var u1 := used + {h} + {c[1]};
    assert c[..2][..1] == c[..1] && c[..1][..0] == [];
    assert ChainTrack(a0, c[..1]) == a0[c[0]].track;
    assert ChainTrack(a0, c[..2]) == a0[c[0]].track + a0[c[1]].track;
    assert a[c[0]] == a0[c[0]] && a[c[1]] == a0[c[1]];
    assert JoinedUpTo(a0, a1, u1, c, 1);
    FollowChainAlong(links, c, a0, a1, u1, 1, |links| - 1);
  }

  /** A chain started at a slot outside an isolated chain leaves the chain's
      members and their use as they were. */
  lemma {:induction false} StartOutside(links: seq<seq<JoinHypothesis>>, c: seq<nat>, a: seq<Tracklet>,
                                        used: set<nat>, i: nat)
    requires Keyed(links) && Acyclic(links) && |links| <= |a| && IsolatedChain(links, c)
    requires i < |links| && links[i] != [] && i !in c
    ensures links[i][0].first == i && links[i][0].second < |links| && links[i][0].second != i
    ensures Ends(links, links[i][0].second, |links| - 1) && Avoids(links, links[i][0].second, i, |links| - 1)
    ensures var child := links[i][0].second;
      var s := FollowChain(links, Joined(a, i, child), used + {i} + {child}, i, child, |links| - 1);
      forall m :: 0 <= m < |c| ==> s.tracklets[c[m]] == a[c[m]] && (c[m] in s.used <==> c[m] in used)
  {
    assert Ends(links, i, |links|) && Avoids(links, i, i, |links|);
    var child := links[i][0].second;
    assert child !in c;
    FollowChainOutside(links, c, Joined(a, i, child), used + {i} + {child}, i, child, |links| - 1);
  }

  /** A slot with a link starts a chain that can be followed: its entry
      joins onto the slot itself, and its target's chain ends and never
      comes back to the slot. */
  lemma ChainStart(links: seq<seq<JoinHypothesis>>, i: nat)
    requires Keyed(links) && Acyclic(links) && i < |links| && links[i] != []
    ensures links[i][0].first == i && links[i][0].second < |links| && links[i][0].second != i
    ensures Ends(links, links[i][0].second, |links| - 1) && Avoids(links, links[i][0].second, i, |links| - 1)
  {
    assert Ends(links, i, |links|) && Avoids(links, i, i, |links|);
  }

  /** One turn of the outer loop at a slot that starts a chain. */
  lemma MergeFromUnfold(links: seq<seq<JoinHypothesis>>, a: seq<Tracklet>, used: set<nat>, i: nat)
    requires Keyed(links) && Acyclic(links) && |links| <= |a| && i < |links| && links[i] != [] && i !in used
    ensures links[i][0].first == i && links[i][0].second < |links| && links[i][0].second != i
    ensures Ends(links, links[i][0].second, |links| - 1) && Avoids(links, links[i][0].second, i, |links| - 1)
    ensures var child := links[i][0].second;
      var s := FollowChain(links, Joined(a, i, child), used + {i} + {child}, i, child, |links| - 1);
      MergeFrom(links, a, used, i) == MergeFrom(links, s.tracklets, s.used, i + 1)
  {
    ChainStart(links, i);
  }

  /** One turn of the outer loop at a slot that starts nothing. */
  lemma MergeFromSkip(links: seq<seq<JoinHypothesis>>, a: seq<Tracklet>, used: set<nat>, i: nat)
    requires Keyed(links) && Acyclic(links) && |links| <= |a| && i < |links| && (links[i] == [] || i in used)
    ensures MergeFrom(links, a, used, i) == MergeFrom(links, a, used, i + 1)
  {
  }

  /** The outer loop past the last slot leaves the state as it is. */
  lemma MergeFromDone(links: seq<seq<JoinHypothesis>>, a: seq<Tracklet>, used: set<nat>)
    requires Keyed(links) && Acyclic(links) && |links| <= |a|
    ensures MergeFrom(links, a, used, |links|) == ChainState(a, used)
  {
  }

  /** Untouched and JoinedUpTo depend only on the members' records and on
      which members are used. */
  lemma SameOnChain(a0: seq<Tracklet>, a: seq<Tracklet>, used: set<nat>, a': seq<Tracklet>, used': set<nat>,
                    c: seq<nat>, m: nat)
    requires IndicesBelow(c, |a0|) && |a| == |a0| && |a'| == |a0|
    requires forall l :: 0 <= l < |c| ==> a'[c[l]] == a[c[l]] && (c[l] in used' <==> c[l] in used)
    ensures Untouched(a0, a, used, c) ==> Untouched(a0, a', used', c)
    ensures JoinedUpTo(a0, a, used, c, m) ==> JoinedUpTo(a0, a', used', c, m)
  {
  }

  /** Once an isolated chain is joined, each of its members is used. */
  lemma MemberUsed(a0: seq<Tracklet>, a: seq<Tracklet>, used: set<nat>, c: seq<nat>, i: nat)
    requires 2 <= |c| && JoinedUpTo(a0, a, used, c, |c| - 1) && i in c
    ensures i in used
  {
  }

  /** The outer loop from slot `i` on, started before the head of an
      isolated chain is reached or after it was joined, ends with the chain
      joined. */
  lemma {:induction false} MergeFromAlong(links: seq<seq<JoinHypothesis>>, c: seq<nat>, a0: seq<Tracklet>,
                                          a: seq<Tracklet>, used: set<nat>, i: nat)
    requires Keyed(links) && Acyclic(links) && |links| <= |a| && i <= |links| && IsolatedChain(links, c)
    requires i <= c[0] ==> Untouched(a0, a, used, c)
    requires c[0] < i ==> JoinedUpTo(a0, a, used, c, |c| - 1)
    ensures JoinedUpTo(a0, MergeFrom(links, a, used, i).tracklets, MergeFrom(links, a, used, i).used, c, |c| - 1)
    decreases |links| - i, 1
  {
    if i == |links| {
      assert c[0] < i;
      assert MergeFrom(links, a, used, i) == ChainState(a, used);
    } else if i == c[0] {
      AlongHead(links, c, a0, a, used, i);
    } else if links[i] != [] && i !in used && i !in c {
      AlongOutside(links, c, a0, a, used, i);
    } else {
      if i in c {
        MemberUsed(a0, a, used, c, i);
      }
      MergeFromSkip(links, a, used, i);
      MergeFromAlong(links, c, a0, a, used, i + 1);
    }
  }

  /** The outer loop reaching the head of an isolated chain fuses it. */
  lemma {:induction false} AlongHead(links: seq<seq<JoinHypothesis>>, c: seq<nat>, a0: seq<Tracklet>,
                                     a: seq<Tracklet>, used: set<nat>, i: nat)
    requires Keyed(links) && Acyclic(links) && |links| <= |a| && i < |links| && IsolatedChain(links, c)
    requires i == c[0] && Untouched(a0, a, used, c)
    ensures JoinedUpTo(a0, MergeFrom(links, a, used, i).tracklets, MergeFrom(links, a, used, i).used, c, |c| - 1)
    decreases |links| - i, 0
  {
    StartAtHead(links, c, a0, a, used);
    var s := FollowChain(links, Joined(a, i, c[1]), used + {i} + {c[1]}, i, c[1], |links| - 1);
    assert MergeFrom(links, a, used, i) == MergeFrom(links, s.tracklets, s.used, i + 1) by {
      MergeFromUnfold(links, a, used, i);
    }
    MergeFromAlong(links, c, a0, s.tracklets, s.used, i + 1);
  }

  /** A chain started outside an isolated chain leaves it as it was. */
  lemma {:induction false} AlongOutside(links: seq<seq<JoinHypothesis>>, c: seq<nat>, a0: seq<Tracklet>,
                                        a: seq<Tracklet>, used: set<nat>, i: nat)
    requires Keyed(links) && Acyclic(links) && |links| <= |a| && i < |links| && IsolatedChain(links, c)
    requires links[i] != [] && i !in used && i !in c
    requires i <= c[0] ==> Untouched(a0, a, used, c)
    requires c[0] < i ==> JoinedUpTo(a0, a, used, c, |c| - 1)
    ensures JoinedUpTo(a0, MergeFrom(links, a, used, i).tracklets, MergeFrom(links, a, used, i).used, c, |c| - 1)
    decreases |links| - i, 0
  {
    StartOutside(links, c, a, used, i);
    var child := links[i][0].second;
    var s := FollowChain(links, Joined(a, i, child), used + {i} + {child}, i, child, |links| - 1);
    assert MergeFrom(links, a, used, i) == MergeFrom(links, s.tracklets, s.used, i + 1) by {
      MergeFromUnfold(links, a, used, i);
    }
    assert (i + 1 <= c[0] ==> Untouched(a0, s.tracklets, s.used, c))
        && (c[0] < i + 1 ==> JoinedUpTo(a0, s.tracklets, s.used, c, |c| - 1)) by {
      SameOnChain(a0, a, used, s.tracklets, s.used, c, |c| - 1);
    }
    MergeFromAlong(links, c, a0, s.tracklets, s.used, i + 1);
  }

  /** An isolated chain h -> c1 -> ... -> ck whose head h has the lowest ID
      ends up as one tracklet: h holds every member's observations in chain
      order and the fate of the tail, keeps its own removal flag, and every
      other member is flagged for removal and renamed straight to h; all
      members are marked used. */
  lemma IsolatedChainFused(links: seq<seq<JoinHypothesis>>, a: seq<Tracklet>, c: seq<nat>)
    requires Keyed(links) && Acyclic(links) && |links| <= |a| && IsolatedChain(links, c)
    ensures var s := MergeFrom(links, a, {}, 0);
      && s.tracklets[c[0]].track == ChainTrack(a, c)
      && s.tracklets[c[0]].fate == a[c[|c| - 1]].fate
      && s.tracklets[c[0]].toRemove == a[c[0]].toRemove
      && (forall m :: 1 <= m < |c| ==> s.tracklets[c[m]].toRemove && s.tracklets[c[m]].renamedID == c[0])
      && (forall m :: 0 <= m < |c| ==> c[m] in s.used)
  {
    MergeFromAlong(links, c, a, a, {}, 0);
    assert c[..|c|] == c;
  }

  /** Four tracklets with the links 3 -> 1 and 1 -> 2. */
  function TwoLinks(): seq<seq<JoinHypothesis>>
  {
    [[], [JoinHypothesis(1, 2)], [], [JoinHypothesis(3, 1)]]
  }

  /** Four tracklets, tracklet k holding the one observation k. */
  function FourSingletons(): seq<Tracklet>
  {
    [Tracklet([0], Pundef, 0, 0, false), Tracklet([1], Pundef, 0, 0, false),
     Tracklet([2], Pundef, 0, 0, false), Tracklet([3], Pundef, 0, 0, false)]
  }

  lemma TwoLinksAcyclic()
    ensures Keyed(TwoLinks()) && Acyclic(TwoLinks())
  {
    var links := TwoLinks();
    assert Ends(links, 2, 3) && Ends(links, 1, 4) && Ends(links, 3, 4);
    assert Avoids(links, 2, 3, 2) && Avoids(links, 1, 3, 3) && Avoids(links, 1, 1, 4) && Avoids(links, 3, 3, 4);
  }

  /** Slots 0 to 2: the chain 1 -> 2 is joined, slot 3 not yet reached. */
  lemma TwoLinksFirstChain()
    requires Keyed(TwoLinks()) && Acyclic(TwoLinks())
    ensures MergeFrom(TwoLinks(), FourSingletons(), {}, 0) == MergeFrom(TwoLinks(), Joined(FourSingletons(), 1, 2), {1, 2}, 3)
  {
    var links := TwoLinks();
    var a := FourSingletons();
    var a1 := Joined(a, 1, 2);
    assert Turn(links, a, {}, 0) == ChainState(a, {});
    assert Turn(links, a, {}, 1) == ChainState(a1, {1, 2}) by {
      assert FollowChain(links, a1, {1, 2}, 1, 2, 3) == ChainState(a1, {1, 2});
    }
    assert Turn(links, a1, {1, 2}, 2) == ChainState(a1, {1, 2});
    assert MergeFrom(links, a, {}, 0) == MergeFrom(links, a1, {1, 2}, 2);
  }

  /** Slot 3: its chain 3 -> 1 -> 2 joins 1's track, which already holds 2's
      observation, and then 2's track once more. */
  lemma TwoLinksSecondChain()
    requires Keyed(TwoLinks()) && Acyclic(TwoLinks())
    ensures MergeFrom(TwoLinks(), Joined(FourSingletons(), 1, 2), {1, 2}, 3).tracklets[3].track == [3, 1, 2, 2]
  {
    var links := TwoLinks();
    var a1 := Joined(FourSingletons(), 1, 2);
    var a2 := Joined(a1, 3, 1);
    var a3 := Joined(a2, 3, 2);
    assert a1[1].track == [1, 2] && a1[2].track == [2] && a1[3].track == [3];
    assert a2[3].track == [3, 1, 2] && a2[2].track == [2];
    assert Turn(links, a1, {1, 2}, 3) == ChainState(a3, {1, 2, 3}) by {
      assert FollowChain(links, a3, {1, 2, 3}, 3, 2, 2) == ChainState(a3, {1, 2, 3});
      assert FollowChain(links, a2, {1, 2, 3}, 3, 1, 3) == ChainState(a3, {1, 2, 3});
    }
    assert MergeFrom(links, a1, {1, 2}, 3) == ChainState(a3, {1, 2, 3});
  }

  /** Chain heads are visited in ascending ID, so when a chain's head has a
      higher ID than a member that starts a link of its own, the member's
      sub-chain is joined first and then joined again: with links 3 -> 1 and
      1 -> 2, tracklet 2's observations end up twice in tracklet 3. */
  lemma LowerMemberJoinedTwice()
    ensures Keyed(TwoLinks()) && Acyclic(TwoLinks())
    ensures MergeFrom(TwoLinks(), FourSingletons(), {}, 0).tracklets[3].track == [3, 1, 2, 2]
  {
    TwoLinksAcyclic();
    TwoLinksFirstChain();
    TwoLinksSecondChain();
  }

}
