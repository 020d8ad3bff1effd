/** Lineage annotation: `branch_tracks` and the division loop of
    `TrackManager::merge`, as functions on the tracklet arena. */
module Lineage {
  import opened Types

  /** The three tracklets a division names are in the arena. */
  predicate BranchFits(b: BranchHypothesis, n: nat)
  {
    b.parent < n && b.childOne < n && b.childTwo < n
  }

  /** Every entry of the division table names tracklets of the arena. */
  predicate TableFits(branches: seq<seq<BranchHypothesis>>, n: nat)
  {
    forall k, m :: 0 <= k < |branches| && 0 <= m < |branches[k]| ==> BranchFits(branches[k][m], n)
  }

  /** The ID a division writes into its children: the ID of the tracklet
      the parent was joined into, if it was, else the parent's own. */
  function EffectiveParent(a: seq<Tracklet>, p: nat): nat
    requires p < |a|
  {
    if a[p].toRemove then a[p].renamedID else p
  }

  /** `branch_tracks(b)`: both children's parent becomes the parent's
      effective ID, then the parent's fate becomes `Pdivn`. */
  function Branched(a: seq<Tracklet>, b: BranchHypothesis): (r: seq<Tracklet>)
    requires BranchFits(b, |a|)
    ensures |r| == |a|
  {
    var id := EffectiveParent(a, b.parent);
    var a1 := a[b.childOne := a[b.childOne].(parent := id)];
    var a2 := a1[b.childTwo := a1[b.childTwo].(parent := id)];
    a2[b.parent := a2[b.parent].(fate := Pdivn)]
  }

  /** One turn of the division loop: a slot with an entry applies its
      first entry; an empty slot changes nothing. */
  function DivisionAt(branches: seq<seq<BranchHypothesis>>, a: seq<Tracklet>, i: nat): (r: seq<Tracklet>)
    requires TableFits(branches, |a|) && i < |branches|
    ensures |r| == |a|
  {
    if branches[i] != [] then Branched(a, branches[i][0]) else a
  }

  /** The division loop from slot `i` on. */
  function BranchFrom(branches: seq<seq<BranchHypothesis>>, a: seq<Tracklet>, i: nat): (r: seq<Tracklet>)
    requires TableFits(branches, |a|) && i <= |branches|
    ensures |r| == |a|
    decreases |branches| - i
  {
    if i == |branches| then a else BranchFrom(branches, DivisionAt(branches, a, i), i + 1)
  }

  /** The slot `k` holds a division one of whose children is `x`. */
  predicate NamesChild(branches: seq<seq<BranchHypothesis>>, k: nat, x: nat)
    requires k < |branches|
  {
    branches[k] != [] && (branches[k][0].childOne == x || branches[k][0].childTwo == x)
  }

  /** A division changes only the children's parents and the parent's
      fate: observations, rename pointers and removal flags stay, so the
      parent is not flagged for removal by it. */
  lemma BranchedKeeps(a: seq<Tracklet>, b: BranchHypothesis, x: nat)
    requires BranchFits(b, |a|) && x < |a|
    ensures Branched(a, b)[x].track == a[x].track
    ensures Branched(a, b)[x].renamedID == a[x].renamedID
    ensures Branched(a, b)[x].toRemove == a[x].toRemove
    ensures x != b.childOne && x != b.childTwo ==> Branched(a, b)[x].parent == a[x].parent
    ensures x != b.parent ==> Branched(a, b)[x].fate == a[x].fate
  {
  }

  /** The whole division loop changes no observations, rename pointers or
      removal flags. */
  lemma {:induction false} BranchFromKeeps(branches: seq<seq<BranchHypothesis>>, a: seq<Tracklet>, i: nat, x: nat)
    requires TableFits(branches, |a|) && i <= |branches| && x < |a|
    ensures BranchFrom(branches, a, i)[x].track == a[x].track
    ensures BranchFrom(branches, a, i)[x].renamedID == a[x].renamedID
    ensures BranchFrom(branches, a, i)[x].toRemove == a[x].toRemove
    decreases |branches| - i
  {
    if i < |branches| {
      if branches[i] != [] {
        BranchedKeeps(a, branches[i][0], x);
        BranchFromKeeps(branches, Branched(a, branches[i][0]), i + 1, x);
      } else {
        BranchFromKeeps(branches, a, i + 1, x);
      }
    }
  }

  /** One slot of the arena after a division: only a child's parent and the
      parent's fate can differ from before. */
  lemma BranchedAt(a: seq<Tracklet>, b: BranchHypothesis, x: nat)
    requires BranchFits(b, |a|) && x < |a|
    ensures Branched(a, b)[x] == a[x].(
      parent := if x == b.childOne || x == b.childTwo then EffectiveParent(a, b.parent) else a[x].parent,
      fate := if x == b.parent then Pdivn else a[x].fate)
  {
  }

  /** Two divisions with distinct children, applied in either order, agree
      on slot `x`. */
  lemma BranchedCommuteAt(a: seq<Tracklet>, b1: BranchHypothesis, b2: BranchHypothesis, x: nat)
    requires BranchFits(b1, |a|) && BranchFits(b2, |a|) && x < |a|
    requires b1.childOne != b2.childOne && b1.childOne != b2.childTwo
    requires b1.childTwo != b2.childOne && b1.childTwo != b2.childTwo
    ensures Branched(Branched(a, b1), b2)[x] == Branched(Branched(a, b2), b1)[x]
  {
    var a1 := Branched(a, b1);
    var a2 := Branched(a, b2);
    BranchedAt(a, b1, b2.parent);
    BranchedAt(a, b2, b1.parent);
    BranchedAt(a, b1, x);
    BranchedAt(a, b2, x);
    BranchedAt(a1, b2, x);
    BranchedAt(a2, b1, x);
  }

  /** Divisions whose children are distinct commute: applying them in either
      order gives the same arena, because neither reads what the other
      writes. */
  lemma BranchedCommute(a: seq<Tracklet>, b1: BranchHypothesis, b2: BranchHypothesis)
    requires BranchFits(b1, |a|) && BranchFits(b2, |a|)
    requires b1.childOne != b2.childOne && b1.childOne != b2.childTwo
    requires b1.childTwo != b2.childOne && b1.childTwo != b2.childTwo
    ensures Branched(Branched(a, b1), b2) == Branched(Branched(a, b2), b1)
  {
    forall x | 0 <= x < |a| ensures Branched(Branched(a, b1), b2)[x] == Branched(Branched(a, b2), b1)[x] {
      BranchedCommuteAt(a, b1, b2, x);
    }
  }

  /** The division `b` shows in `r`: both children carry `id` as their
      parent and the parent's fate is `Pdivn`. */
  predicate Divided(r: seq<Tracklet>, b: BranchHypothesis, id: nat)
    requires BranchFits(b, |r|)
  {
    r[b.childOne].parent == id && r[b.childTwo].parent == id && r[b.parent].fate == Pdivn
  }

  /** Once a division shows, the rest of the loop keeps it, provided no
      later slot names either child. */
  lemma {:induction false} BranchFromSettled(branches: seq<seq<BranchHypothesis>>, a: seq<Tracklet>, i: nat,
                                             b: BranchHypothesis, id: nat)
    requires TableFits(branches, |a|) && i <= |branches| && BranchFits(b, |a|) && Divided(a, b, id)
    requires forall k :: i <= k < |branches| ==> !NamesChild(branches, k, b.childOne) && !NamesChild(branches, k, b.childTwo)
    ensures Divided(BranchFrom(branches, a, i), b, id)
    decreases |branches| - i
  {
    if i < |branches| {
      var a' := DivisionAt(branches, a, i);
      assert Divided(a', b, id) by {
        if branches[i] != [] {
          var b' := branches[i][0];
          assert !NamesChild(branches, i, b.childOne) && !NamesChild(branches, i, b.childTwo);
          BranchedAt(a, b', b.childOne);
          BranchedAt(a, b', b.childTwo);
          BranchedAt(a, b', b.parent);
        }
      }
      BranchFromSettled(branches, a', i + 1, b, id);
      assert BranchFrom(branches, a, i) == BranchFrom(branches, a', i + 1);
    }
  }

  /** One turn of the division loop keeps every rename pointer and removal
      flag, so every effective ID, and the loop goes on from the next slot. */
  lemma DivisionAtStep(branches: seq<seq<BranchHypothesis>>, a: seq<Tracklet>, i: nat, p: nat)
    requires TableFits(branches, |a|) && i < |branches| && p < |a|
    ensures EffectiveParent(DivisionAt(branches, a, i), p) == EffectiveParent(a, p)
    ensures BranchFrom(branches, a, i) == BranchFrom(branches, DivisionAt(branches, a, i), i + 1)
  {
    if branches[i] != [] {
      BranchedKeeps(a, branches[i][0], p);
    }
  }

  /** The division at slot `k` itself shows, with the parent's effective
      ID, and no later slot undoes it. */
  lemma LineageAtSlot(branches: seq<seq<BranchHypothesis>>, a: seq<Tracklet>, k: nat)
    requires TableFits(branches, |a|) && k < |branches| && branches[k] != []
    requires forall l :: k < l < |branches| ==>
      !NamesChild(branches, l, branches[k][0].childOne) && !NamesChild(branches, l, branches[k][0].childTwo)
    ensures BranchFits(branches[k][0], |a|)
    ensures Divided(BranchFrom(branches, a, k), branches[k][0], EffectiveParent(a, branches[k][0].parent))
  {
    var b := branches[k][0];
    assert BranchFits(b, |a|);
    var a' := Branched(a, b);
    var id := EffectiveParent(a, b.parent);
    assert Divided(a', b, id) by {
      BranchedAt(a, b, b.childOne);
      BranchedAt(a, b, b.childTwo);
      BranchedAt(a, b, b.parent);
    }
    BranchFromSettled(branches, a', k + 1, b, id);
    assert BranchFrom(branches, a, k) == BranchFrom(branches, a', k + 1);
  }

  /** After the division loop, the children of the division at slot `k`
      carry its parent's effective ID as it stood BEFORE the loop (the
      rename left by chain fusion, else the parent's own ID), and the parent
      is `Pdivn`; this needs only that no other slot names either child. */
  lemma {:induction false} BranchFromLineage(branches: seq<seq<BranchHypothesis>>, a: seq<Tracklet>, i: nat, k: nat)
    requires TableFits(branches, |a|) && i <= k < |branches| && branches[k] != []
    requires forall l :: 0 <= l < |branches| && l != k ==>
      !NamesChild(branches, l, branches[k][0].childOne) && !NamesChild(branches, l, branches[k][0].childTwo)
    ensures BranchFits(branches[k][0], |a|)
    ensures Divided(BranchFrom(branches, a, i), branches[k][0], EffectiveParent(a, branches[k][0].parent))
    decreases k - i
  {
    if i < k {
      assert BranchFits(branches[k][0], |a|);
      DivisionAtStep(branches, a, i, branches[k][0].parent);
      BranchFromLineage(branches, DivisionAt(branches, a, i), i + 1, k);
    } else {
      LineageAtSlot(branches, a, k);
    }
  }



}
