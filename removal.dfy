/** The erase step of `TrackManager::merge`: `m_tracks` loses every tracklet
    flagged for removal and keeps the rest in order. */
module Removal {
  import opened Types

  /** The tracklets of `tids` not flagged for removal, in their order. */
  function Survivors(tids: seq<nat>, a: seq<Tracklet>): (r: seq<nat>)
    requires IndicesBelow(tids, |a|)
    ensures |r| <= |tids| && IndicesBelow(r, |a|)
    ensures forall k :: 0 <= k < |r| ==> !a[r[k]].toRemove
    decreases |tids|
  {
    if tids == [] then []
    else
      var t := tids[|tids| - 1];
      Survivors(tids[..|tids| - 1], a) + (if a[t].toRemove then [] else [t])
  }

  /** A tracklet survives exactly when it was listed and is not flagged. */
  lemma {:induction false} SurvivorsMembers(tids: seq<nat>, a: seq<Tracklet>, x: nat)
    requires IndicesBelow(tids, |a|)
    ensures x in Survivors(tids, a) <==> x in tids && !a[x].toRemove
    decreases |tids|
  {
    if tids != [] {
      var pre := tids[..|tids| - 1];
      assert tids == pre + [tids[|tids| - 1]];
      SurvivorsMembers(pre, a, x);
    }
  }

  /** Erasing distributes over concatenation: survivors keep their relative
      order. */
  lemma {:induction false} SurvivorsConcat(s: seq<nat>, t: seq<nat>, a: seq<Tracklet>)
    requires IndicesBelow(s, |a|) && IndicesBelow(t, |a|)
    ensures IndicesBelow(s + t, |a|)
    ensures Survivors(s + t, a) == Survivors(s, a) + Survivors(t, a)
    decreases |t|
  {
    if t != [] {
      var u := t[..|t| - 1];
      assert (s + t)[..|s + t| - 1] == s + u;
      SurvivorsConcat(s, u, a);
    } else {
      assert s + t == s;
    }
  }

  /** Erasing again removes nothing more. */
  lemma {:induction false} SurvivorsIdempotent(tids: seq<nat>, a: seq<Tracklet>)
    requires IndicesBelow(tids, |a|)
    ensures Survivors(Survivors(tids, a), a) == Survivors(tids, a)
    decreases |tids|
  {
    if tids != [] {
      var pre := tids[..|tids| - 1];
      var t := tids[|tids| - 1];
      SurvivorsIdempotent(pre, a);
      SurvivorsConcat(Survivors(pre, a), if a[t].toRemove then [] else [t], a);
    }
  }
}
