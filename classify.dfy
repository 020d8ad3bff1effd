/** The classification loop of `TrackManager::merge`: every hypothesis sets its
    source tracklet's fate, `Plink` hypotheses are pushed onto the link table
    and `Pdivn` hypotheses onto the division table, both keyed by source ID;
    every other kind, `Pmrge` included, is recorded nowhere. */
module Classify {
  import opened Types

  /** Every hypothesis's source is below `n`. */
  predicate SourcesBelow(hs: seq<Hypothesis>, n: nat)
  {
    forall i :: 0 <= i < |hs| ==> hs[i].trkID < n
  }

  /** Every tracklet a hypothesis names, for the kinds that read it, is below `n`. */
  predicate HypothesesBelow(hs: seq<Hypothesis>, n: nat)
  {
    forall i :: 0 <= i < |hs| ==>
      && hs[i].trkID < n
      && (hs[i].hypothesis == Plink ==> hs[i].trkLinkID < n)
      && (hs[i].hypothesis == Pdivn ==> hs[i].trkChildOneID < n && hs[i].trkChildTwoID < n)
  }

  /** The hypothesis at `i` is a link from tracklet `k`. */
  predicate LinkFrom(hs: seq<Hypothesis>, i: nat, k: nat)
    requires i < |hs|
  {
    hs[i].hypothesis == Plink && hs[i].trkID == k
  }

  /** The hypothesis at `i` is a division of tracklet `k`. */
  predicate DivisionOf(hs: seq<Hypothesis>, i: nat, k: nat)
    requires i < |hs|
  {
    hs[i].hypothesis == Pdivn && hs[i].trkID == k
  }

  /** The arena after the fates are set: each hypothesis in turn writes its
      kind into its source's fate. */
  function ClassifyFates(a: seq<Tracklet>, hs: seq<Hypothesis>): (r: seq<Tracklet>)
    requires SourcesBelow(hs, |a|)
    ensures |r| == |a|
    decreases |hs|
  {
    if hs == [] then a
    else
      var h := hs[|hs| - 1];
      var r := ClassifyFates(a, hs[..|hs| - 1]);
      r[h.trkID := r[h.trkID].(fate := h.hypothesis)]
  }

  /** `m_links` after the loop: `n` empty slots, each `Plink` hypothesis pushed
      onto the end of its source's slot. */
  function LinkTable(hs: seq<Hypothesis>, n: nat): (t: seq<seq<JoinHypothesis>>)
    requires SourcesBelow(hs, n)
    ensures |t| == n
    decreases |hs|
  {
    if hs == [] then seq(n, _ => [])
    else
      var h := hs[|hs| - 1];
      var t := LinkTable(hs[..|hs| - 1], n);
      if h.hypothesis == Plink then t[h.trkID := t[h.trkID] + [JoinHypothesis(h.trkID, h.trkLinkID)]] else t
  }

  /** `m_branches` after the loop: `n` empty slots, each `Pdivn` hypothesis
      pushed onto the end of its source's slot. */
  function BranchTable(hs: seq<Hypothesis>, n: nat): (t: seq<seq<BranchHypothesis>>)
    requires SourcesBelow(hs, n)
    ensures |t| == n
    decreases |hs|
  {
    if hs == [] then seq(n, _ => [])
    else
      var h := hs[|hs| - 1];
      var t := BranchTable(hs[..|hs| - 1], n);
      if h.hypothesis == Pdivn
      then t[h.trkID := t[h.trkID] + [BranchHypothesis(h.trkID, h.trkChildOneID, h.trkChildTwoID)]]
      else t
  }

  /** Classification changes nothing but fates; a tracklet no hypothesis names
      keeps its fate, and one that is named takes the kind of the LAST
      hypothesis naming it. */
  lemma {:induction false} ClassifiedFate(a: seq<Tracklet>, hs: seq<Hypothesis>, k: nat)
    requires SourcesBelow(hs, |a|) && k < |a|
    ensures ClassifyFates(a, hs)[k] == a[k].(fate := ClassifyFates(a, hs)[k].fate)
    ensures (forall i :: 0 <= i < |hs| ==> hs[i].trkID != k) ==> ClassifyFates(a, hs)[k].fate == a[k].fate
    ensures forall i :: 0 <= i < |hs| && hs[i].trkID == k && (forall j :: i < j < |hs| ==> hs[j].trkID != k) ==>
      ClassifyFates(a, hs)[k].fate == hs[i].hypothesis
    decreases |hs|
  {
    if hs != [] {
      var pre := hs[..|hs| - 1];
      ClassifiedFate(a, pre, k);
      forall i | 0 <= i < |hs| - 1 && hs[i].trkID == k && (forall j :: i < j < |hs| ==> hs[j].trkID != k)
        ensures ClassifyFates(a, hs)[k].fate == hs[i].hypothesis
      {
        assert pre[i] == hs[i];
        assert forall j :: i < j < |pre| ==> pre[j].trkID != k;
      }
      if forall i :: 0 <= i < |hs| ==> hs[i].trkID != k {
        assert forall i :: 0 <= i < |pre| ==> pre[i].trkID != k;
      }
    }
  }

  /** The entries of slot `k` of the link table are exactly the `Plink`
      hypotheses from `k`, each as the pair (k, its target). */
  lemma {:induction false} LinkTableEntries(hs: seq<Hypothesis>, n: nat, k: nat, e: JoinHypothesis)
    requires SourcesBelow(hs, n) && k < n
    ensures e in LinkTable(hs, n)[k] <==>
      exists i :: 0 <= i < |hs| && LinkFrom(hs, i, k) && e == JoinHypothesis(k, hs[i].trkLinkID)
    decreases |hs|
  {
    if hs != [] {
      var pre := hs[..|hs| - 1];
      LinkTableEntries(pre, n, k, e);
      if e in LinkTable(pre, n)[k] {
        var i :| 0 <= i < |pre| && LinkFrom(pre, i, k) && e == JoinHypothesis(k, pre[i].trkLinkID);
        assert LinkFrom(hs, i, k);
      }
      if exists i :: 0 <= i < |hs| && LinkFrom(hs, i, k) && e == JoinHypothesis(k, hs[i].trkLinkID) {
        var i :| 0 <= i < |hs| && LinkFrom(hs, i, k) && e == JoinHypothesis(k, hs[i].trkLinkID);
        if i < |pre| {
          assert LinkFrom(pre, i, k);
        }
      }
    }
  }

  /** The first entry of slot `k`, the only one the chain loop reads, comes
      from the FIRST `Plink` hypothesis from `k`. */
  lemma {:induction false} LinkTableFirst(hs: seq<Hypothesis>, n: nat, k: nat, i: nat)
    requires SourcesBelow(hs, n) && k < n && i < |hs|
    requires LinkFrom(hs, i, k) && forall j :: 0 <= j < i ==> !LinkFrom(hs, j, k)
    ensures LinkTable(hs, n)[k] != [] && LinkTable(hs, n)[k][0] == JoinHypothesis(k, hs[i].trkLinkID)
    decreases |hs|
  {
    var pre := hs[..|hs| - 1];
    if i < |pre| {
      forall j | 0 <= j < i ensures !LinkFrom(pre, j, k) {
        assert !LinkFrom(hs, j, k) && pre[j] == hs[j];
      }
      LinkTableFirst(pre, n, k, i);
    } else if LinkTable(pre, n)[k] != [] {
      var e := LinkTable(pre, n)[k][0];
      LinkTableEntries(pre, n, k, e);
      var j :| 0 <= j < |pre| && LinkFrom(pre, j, k) && e == JoinHypothesis(k, pre[j].trkLinkID);
      assert LinkFrom(hs, j, k);
      assert false;
    }
  }

  /** The entries of slot `k` of the division table are exactly the `Pdivn`
      hypotheses of `k`, each as (k, first child, second child). */
  lemma {:induction false} BranchTableEntries(hs: seq<Hypothesis>, n: nat, k: nat, e: BranchHypothesis)
    requires SourcesBelow(hs, n) && k < n
    ensures e in BranchTable(hs, n)[k] <==>
      exists i :: 0 <= i < |hs| && DivisionOf(hs, i, k) && e == BranchHypothesis(k, hs[i].trkChildOneID, hs[i].trkChildTwoID)
    decreases |hs|
  {
    if hs != [] {
      var pre := hs[..|hs| - 1];
      BranchTableEntries(pre, n, k, e);
      if e in BranchTable(pre, n)[k] {
        var i :| 0 <= i < |pre| && DivisionOf(pre, i, k) && e == BranchHypothesis(k, pre[i].trkChildOneID, pre[i].trkChildTwoID);
        assert DivisionOf(hs, i, k);
      }
      if exists i :: 0 <= i < |hs| && DivisionOf(hs, i, k) && e == BranchHypothesis(k, hs[i].trkChildOneID, hs[i].trkChildTwoID) {
        var i :| 0 <= i < |hs| && DivisionOf(hs, i, k) && e == BranchHypothesis(k, hs[i].trkChildOneID, hs[i].trkChildTwoID);
        if i < |pre| {
          assert DivisionOf(pre, i, k);
        }
      }
    }
  }

  /** The first entry of slot `k`, the only one the division loop reads, comes
      from the FIRST `Pdivn` hypothesis of `k`. */
  lemma {:induction false} BranchTableFirst(hs: seq<Hypothesis>, n: nat, k: nat, i: nat)
    requires SourcesBelow(hs, n) && k < n && i < |hs|
    requires DivisionOf(hs, i, k) && forall j :: 0 <= j < i ==> !DivisionOf(hs, j, k)
    ensures BranchTable(hs, n)[k] != []
    ensures BranchTable(hs, n)[k][0] == BranchHypothesis(k, hs[i].trkChildOneID, hs[i].trkChildTwoID)
    decreases |hs|
  {
    var pre := hs[..|hs| - 1];
    if i < |pre| {
      forall j | 0 <= j < i ensures !DivisionOf(pre, j, k) {
        assert !DivisionOf(hs, j, k) && pre[j] == hs[j];
      }
      BranchTableFirst(pre, n, k, i);
    } else if BranchTable(pre, n)[k] != [] {
      var e := BranchTable(pre, n)[k][0];
      BranchTableEntries(pre, n, k, e);
      var j :| 0 <= j < |pre| && DivisionOf(pre, j, k) && e == BranchHypothesis(k, pre[j].trkChildOneID, pre[j].trkChildTwoID);
      assert DivisionOf(hs, j, k);
      assert false;
    }
  }

  /** A `Pmrge` hypothesis (like any kind other than `Plink` and `Pdivn`)
      leaves both tables as they were; it only sets its source's fate. */
  lemma {:induction false} OtherKindsNotTabled(hs: seq<Hypothesis>, h: Hypothesis, n: nat)
    requires SourcesBelow(hs, n) && h.trkID < n && h.hypothesis != Plink && h.hypothesis != Pdivn
    ensures SourcesBelow(hs + [h], n)
    ensures LinkTable(hs + [h], n) == LinkTable(hs, n)
    ensures BranchTable(hs + [h], n) == BranchTable(hs, n)
  {
    assert (hs + [h])[..|hs + [h]| - 1] == hs;
  }
}
