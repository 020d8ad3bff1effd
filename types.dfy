/** The records the track manager works on: observations, tracklets and the
    hypotheses chosen for them. Tracklets are kept in an arena whose slot is
    the tracklet's ID, so a tracklet pointer and its ID are the same number. */
module Types {

  /** The outcome kinds of a hypothesis, which are also the values of a
      tracklet's fate (FALSE_POSITIVE, INITIALIZE, TERMINATE, LINK, DIVIDE,
      APOPTOSIS, MERGE, EXTRUDE, DEAD, UNDEFINED). */
  datatype Fate = Pfalse | Pinit | Pterm | Plink | Pdivn | Papop | Pmrge | Pextrude | Pdead | Pundef

  /** One observation: its ID (a detection's own, or the negative number a
      placeholder receives when the tracks are finalised), its time step, and
      whether it is a placeholder ("dummy"). */
  datatype TrackObject = TrackObject(id: int, t: int, dummy: bool)

  /** A tracklet: `track` holds indices into the observation arena, in time
      order; `renamedID` is the ID of the tracklet it was joined into, and
      `toRemove` flags it for erasure. */
  datatype Tracklet = Tracklet(track: seq<nat>, fate: Fate, parent: nat, renamedID: nat, toRemove: bool)

  /** An accepted hypothesis for the tracklet `trkID`; the link target is read
      only for `Plink`, the two children only for `Pdivn`. */
  datatype Hypothesis = Hypothesis(hypothesis: Fate, trkID: nat, trkLinkID: nat, trkChildOneID: nat, trkChildTwoID: nat)

  /** An entry of the link table: join `second` onto `first`. */
  datatype JoinHypothesis = JoinHypothesis(first: nat, second: nat)

  /** An entry of the division table: `parent` divides into the two children. */
  datatype BranchHypothesis = BranchHypothesis(parent: nat, childOne: nat, childTwo: nat)

  /** Every index in `s` addresses an arena of `n` slots. */
  predicate IndicesBelow(s: seq<nat>, n: nat)
  {
    forall i :: 0 <= i < |s| ==> s[i] < n
  }

  /** No index occurs twice in `s`. */
  predicate Distinct(s: seq<nat>)
  {
    forall i, j :: 0 <= i < j < |s| ==> s[i] != s[j]
  }

  /** Every tracklet of the arena refers only to observations that exist. */
  predicate ArenaFits(a: seq<Tracklet>, objs: seq<TrackObject>)
  {
    forall k :: 0 <= k < |a| ==> IndicesBelow(a[k].track, |objs|)
  }

  /** A prefix one longer is the prefix with the next element appended. */
  lemma PrefixStep(s: seq<nat>, i: nat)
    requires i < |s|
    ensures s[..i + 1] == s[..i] + [s[i]]
  {
  }

  /** Extending the scanned part of `t` by one element, after `s`. */
  lemma ScanStep(s: seq<nat>, t: seq<nat>, i: nat)
    requires i < |t|
    ensures s + t[..i + 1] == (s + t[..i]) + [t[i]]
  {
    PrefixStep(t, i);
  }
}
