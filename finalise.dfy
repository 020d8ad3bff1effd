/** `TrackManager::finalise` and `get_dummy`, as functions: trimming the
    trailing placeholders ("dummies") off each track, listing the remaining
    placeholders in track-then-position order, and numbering them -1, -2, ...
    The imperative loops in module Manager are proved equal to these. */
module Finalise {
  import opened Types

  /** `Tracklet::trim`: the track with its trailing dummy observations
      dropped. */
  function Trimmed(track: seq<nat>, objs: seq<TrackObject>): (r: seq<nat>)
    requires IndicesBelow(track, |objs|)
    ensures |r| <= |track| && r == track[..|r|]
    ensures forall i :: |r| <= i < |track| ==> objs[track[i]].dummy
    ensures r != [] ==> !objs[r[|r| - 1]].dummy
    decreases |track|
  {
    if track == [] || !objs[track[|track| - 1]].dummy then track
    else Trimmed(track[..|track| - 1], objs)
  }

  /** The trimmed track is the only prefix that drops nothing but dummies
      and does not itself end in one. */
  lemma {:induction false} TrimmedUnique(track: seq<nat>, objs: seq<TrackObject>, p: seq<nat>)
    requires IndicesBelow(track, |objs|)
    requires |p| <= |track| && p == track[..|p|]
    requires forall i :: |p| <= i < |track| ==> objs[track[i]].dummy
    requires p != [] ==> !objs[p[|p| - 1]].dummy
    ensures Trimmed(track, objs) == p
    decreases |track|
  {
    if |p| < |track| {
      var pre := track[..|track| - 1];
      assert p == pre[..|p|];
      assert objs[track[|track| - 1]].dummy;
      TrimmedUnique(pre, objs, p);
    }
  }

  /** Trimming twice is trimming once. */
  lemma TrimmedIdempotent(track: seq<nat>, objs: seq<TrackObject>)
    requires IndicesBelow(track, |objs|)
    ensures IndicesBelow(Trimmed(track, objs), |objs|)
    ensures Trimmed(Trimmed(track, objs), objs) == Trimmed(track, objs)
  {
    var r := Trimmed(track, objs);
    assert forall i :: 0 <= i < |r| ==> r[i] == track[i];
    TrimmedUnique(r, objs, r);
  }

  /** The two observation arenas agree on which observations are dummies. */
  predicate SameFlags(o1: seq<TrackObject>, o2: seq<TrackObject>)
  {
    |o1| == |o2| && forall x :: 0 <= x < |o1| ==> o1[x].dummy == o2[x].dummy
  }

  /** Trimming reads only the dummy flags. */
  lemma {:induction false} TrimmedSameFlags(track: seq<nat>, o1: seq<TrackObject>, o2: seq<TrackObject>)
    requires IndicesBelow(track, |o1|) && SameFlags(o1, o2)
    ensures Trimmed(track, o1) == Trimmed(track, o2)
    decreases |track|
  {
    if track != [] {
      TrimmedSameFlags(track[..|track| - 1], o1, o2);
    }
  }

  /** The tracklets listed in `tids` trimmed, every other one as it was. */
  function TrimAll(a: seq<Tracklet>, tids: seq<nat>, objs: seq<TrackObject>): (r: seq<Tracklet>)
    requires ArenaFits(a, objs)
    ensures |r| == |a|
  {
    seq(|a|, k requires 0 <= k < |a| => if k in tids then a[k].(track := Trimmed(a[k].track, objs)) else a[k])
  }

  /** Trimming changes only the tracks of the listed tracklets, and only by
      cutting them to a prefix; the arena still fits the observations. */
  lemma TrimAllEffect(a: seq<Tracklet>, tids: seq<nat>, objs: seq<TrackObject>, k: nat)
    requires ArenaFits(a, objs) && k < |a|
    ensures TrimAll(a, tids, objs)[k] == a[k].(track := TrimAll(a, tids, objs)[k].track)
    ensures k in tids ==> TrimAll(a, tids, objs)[k].track == Trimmed(a[k].track, objs)
    ensures k !in tids ==> TrimAll(a, tids, objs)[k].track == a[k].track
    ensures IndicesBelow(TrimAll(a, tids, objs)[k].track, |objs|)
  {
  }

  /** The trimmed arena still fits the observations. */
  lemma TrimAllFits(a: seq<Tracklet>, tids: seq<nat>, objs: seq<TrackObject>)
    requires ArenaFits(a, objs)
    ensures ArenaFits(TrimAll(a, tids, objs), objs)
  {
    forall k | 0 <= k < |a| ensures IndicesBelow(TrimAll(a, tids, objs)[k].track, |objs|) {
      TrimAllEffect(a, tids, objs, k);
    }
  }

  /** Trimming one more listed tracklet extends the trimmed arena; a
      tracklet listed twice is trimmed twice, which changes nothing more. */
  lemma TrimAllStep(a: seq<Tracklet>, tids: seq<nat>, objs: seq<TrackObject>, t: nat)
    requires ArenaFits(a, objs) && t < |a|
    ensures IndicesBelow(TrimAll(a, tids, objs)[t].track, |objs|)
    ensures TrimAll(a, tids, objs)[t := TrimAll(a, tids, objs)[t].(track := Trimmed(TrimAll(a, tids, objs)[t].track, objs))]
      == TrimAll(a, tids + [t], objs)
  {
    var r := TrimAll(a, tids, objs);
    TrimAllEffect(a, tids, objs, t);
    TrimmedIdempotent(a[t].track, objs);
    var r' := r[t := r[t].(track := Trimmed(r[t].track, objs))];
    forall k | 0 <= k < |a| ensures r'[k] == TrimAll(a, tids + [t], objs)[k] {
      assert k in tids + [t] <==> k in tids || k == t;
    }
  }

  /** The dummy observations of `track`, in order. */
  function DummiesIn(track: seq<nat>, objs: seq<TrackObject>): (ds: seq<nat>)
    requires IndicesBelow(track, |objs|)
    ensures |ds| <= |track| && IndicesBelow(ds, |objs|)
    decreases |track|
  {
    if track == [] then []
    else
      var x := track[|track| - 1];
      DummiesIn(track[..|track| - 1], objs) + (if objs[x].dummy then [x] else [])
  }

  /** An observation is listed exactly when it occurs in the track and is
      a dummy. */
  lemma {:induction false} DummiesInMembers(track: seq<nat>, objs: seq<TrackObject>, x: nat)
    requires IndicesBelow(track, |objs|)
    ensures x in DummiesIn(track, objs) <==> x in track && x < |objs| && objs[x].dummy
    decreases |track|
  {
    if track != [] {
      var pre := track[..|track| - 1];
      assert track == pre + [track[|track| - 1]];
      DummiesInMembers(pre, objs, x);
    }
  }

  /** Scanning one more observation lists it if it is a dummy. */
  lemma DummiesInAppend(s: seq<nat>, x: nat, objs: seq<TrackObject>)
    requires IndicesBelow(s, |objs|) && x < |objs|
    ensures IndicesBelow(s + [x], |objs|)
    ensures DummiesIn(s + [x], objs) == DummiesIn(s, objs) + (if objs[x].dummy then [x] else [])
  {
    assert (s + [x])[..|s|] == s;
  }

  /** Listing dummies distributes over concatenation, so the list keeps the
      observations' order. */
  lemma {:induction false} DummiesInConcat(s: seq<nat>, t: seq<nat>, objs: seq<TrackObject>)
    requires IndicesBelow(s, |objs|) && IndicesBelow(t, |objs|)
    ensures IndicesBelow(s + t, |objs|)
    ensures DummiesIn(s + t, objs) == DummiesIn(s, objs) + DummiesIn(t, objs)
    decreases |t|
  {
    if t != [] {
      var u := t[..|t| - 1];
      assert (s + t)[..|s + t| - 1] == s + u;
      DummiesInConcat(s, u, objs);
    } else {
      assert s + t == s;
    }
  }

  /** A track in which no observation occurs twice lists each dummy once. */
  lemma {:induction false} DummiesInDistinct(track: seq<nat>, objs: seq<TrackObject>)
    requires IndicesBelow(track, |objs|) && Distinct(track)
    ensures Distinct(DummiesIn(track, objs))
    decreases |track|
  {
    if track != [] {
      var pre := track[..|track| - 1];
      var x := track[|track| - 1];
      assert Distinct(pre);
      DummiesInDistinct(pre, objs);
      assert x !in pre;
      DummiesInMembers(pre, objs, x);
    }
  }

  /** Listing dummies reads only the dummy flags. */
  lemma {:induction false} DummiesInSameFlags(track: seq<nat>, o1: seq<TrackObject>, o2: seq<TrackObject>)
    requires IndicesBelow(track, |o1|) && SameFlags(o1, o2)
    ensures DummiesIn(track, o1) == DummiesIn(track, o2)
    decreases |track|
  {
    if track != [] {
      DummiesInSameFlags(track[..|track| - 1], o1, o2);
    }
  }

  /** The observations of the tracklets `tids`, each track trimmed, in the
      order the tracks are visited. */
  function Observations(tids: seq<nat>, a: seq<Tracklet>, objs: seq<TrackObject>): (s: seq<nat>)
    requires IndicesBelow(tids, |a|) && ArenaFits(a, objs)
    ensures IndicesBelow(s, |objs|)
    decreases |tids|
  {
    if tids == [] then []
    else Observations(tids[..|tids| - 1], a, objs) + Trimmed(a[tids[|tids| - 1]].track, objs)
  }

  /** The dummy registry `finalise` builds: the dummies left in the trimmed
      tracks, in track-then-position order. */
  function DummyList(tids: seq<nat>, a: seq<Tracklet>, objs: seq<TrackObject>): (ds: seq<nat>)
    requires IndicesBelow(tids, |a|) && ArenaFits(a, objs)
    ensures IndicesBelow(ds, |objs|)
  {
    DummiesIn(Observations(tids, a, objs), objs)
  }

  /** Visiting one more track appends its trimmed observations. */
  lemma ObservationsStep(tids: seq<nat>, a: seq<Tracklet>, objs: seq<TrackObject>, t: nat)
    requires IndicesBelow(tids, |a|) && ArenaFits(a, objs) && t < |a|
    ensures IndicesBelow(tids + [t], |a|)
    ensures Observations(tids + [t], a, objs) == Observations(tids, a, objs) + Trimmed(a[t].track, objs)
  {
    assert (tids + [t])[..|tids|] == tids;
  }

  /** The placeholders `ds`, in turn, receive the IDs -1, -2, ...; an
      observation listed twice keeps the later ID. */
  function Numbered(objs: seq<TrackObject>, ds: seq<nat>): (r: seq<TrackObject>)
    requires IndicesBelow(ds, |objs|)
    ensures |r| == |objs|
    decreases |ds|
  {
    if ds == [] then objs
    else
      var x := ds[|ds| - 1];
      var r := Numbered(objs, ds[..|ds| - 1]);
      r[x := r[x].(id := -|ds|)]
  }

  /** Numbering changes only IDs, and only those of the listed
      observations. */
  lemma {:induction false} NumberedKeeps(objs: seq<TrackObject>, ds: seq<nat>, x: nat)
    requires IndicesBelow(ds, |objs|) && x < |objs|
    ensures Numbered(objs, ds)[x] == objs[x].(id := Numbered(objs, ds)[x].id)
    ensures x !in ds ==> Numbered(objs, ds)[x] == objs[x]
    decreases |ds|
  {
    if ds != [] {
      var pre := ds[..|ds| - 1];
      assert ds == pre + [ds[|ds| - 1]];
      NumberedKeeps(objs, pre, x);
    }
  }

  /** Numbering keeps every dummy flag. */
  lemma NumberedSameFlags(objs: seq<TrackObject>, ds: seq<nat>)
    requires IndicesBelow(ds, |objs|)
    ensures SameFlags(Numbered(objs, ds), objs)
  {
    forall x | 0 <= x < |objs| ensures Numbered(objs, ds)[x].dummy == objs[x].dummy {
      NumberedKeeps(objs, ds, x);
    }
  }

  /** Numbering one more placeholder gives it the next ID down. */
  lemma NumberedStep(objs: seq<TrackObject>, ds: seq<nat>, x: nat)
    requires IndicesBelow(ds, |objs|) && x < |objs|
    ensures IndicesBelow(ds + [x], |objs|)
    ensures Numbered(objs, ds + [x]) == Numbered(objs, ds)[x := Numbered(objs, ds)[x].(id := -(|ds| + 1))]
  {
    assert (ds + [x])[..|ds|] == ds;
  }

  /** When no placeholder is listed twice, the k-th one listed gets the ID
      -(k+1). */
  lemma {:induction false} NumberedIds(objs: seq<TrackObject>, ds: seq<nat>, k: nat)
    requires IndicesBelow(ds, |objs|) && Distinct(ds) && k < |ds|
    ensures Numbered(objs, ds)[ds[k]].id == -(k + 1)
    decreases |ds|
  {
    var pre := ds[..|ds| - 1];
    if k < |pre| {
      assert ds[k] == pre[k] && ds[k] != ds[|ds| - 1];
      NumberedIds(objs, pre, k);
    }
  }

  /** `std::abs(a + 1)`: the registry position `get_dummy` reads for the
      negative ID `a`. */
  function DummyIndex(a: int): (n: nat)
    requires a < 0
    ensures a == -(n + 1)
  {
    var d := a + 1;
    if d < 0 then -d else d
  }

  /** Round trip: looking up the ID the k-th registry entry received gives
      back position k, and the entry at the position of a negative ID in
      range carries that ID. */
  lemma DummyRoundTrip(objs: seq<TrackObject>, ds: seq<nat>)
    requires IndicesBelow(ds, |objs|) && Distinct(ds)
    ensures forall k :: 0 <= k < |ds| ==>
      Numbered(objs, ds)[ds[k]].id < 0 && DummyIndex(Numbered(objs, ds)[ds[k]].id) == k
    ensures forall a :: -|ds| <= a < 0 ==> Numbered(objs, ds)[ds[DummyIndex(a)]].id == a
  {
    forall k | 0 <= k < |ds|
      ensures Numbered(objs, ds)[ds[k]].id < 0 && DummyIndex(Numbered(objs, ds)[ds[k]].id) == k
    {
      NumberedIds(objs, ds, k);
    }
    forall a | -|ds| <= a < 0 ensures Numbered(objs, ds)[ds[DummyIndex(a)]].id == a {
      NumberedIds(objs, ds, DummyIndex(a));
    }
  }

  /** What `finalise` promises about the registry when no observation is
      shared between the surviving tracks: every entry is a dummy, entry k
      has the ID -(k+1), and every other observation keeps its ID. */
  lemma FinalisedRegistry(tids: seq<nat>, a: seq<Tracklet>, objs: seq<TrackObject>)
    requires IndicesBelow(tids, |a|) && ArenaFits(a, objs)
    requires Distinct(Observations(tids, a, objs))
    ensures var ds := DummyList(tids, a, objs);
      && Distinct(ds)
      && (forall k :: 0 <= k < |ds| ==> objs[ds[k]].dummy && Numbered(objs, ds)[ds[k]].id == -(k + 1))
      && (forall x :: 0 <= x < |objs| && !objs[x].dummy ==> Numbered(objs, ds)[x].id == objs[x].id)
  {
    var ds := DummyList(tids, a, objs);
    DummiesInDistinct(Observations(tids, a, objs), objs);
    forall k | 0 <= k < |ds| ensures objs[ds[k]].dummy && Numbered(objs, ds)[ds[k]].id == -(k + 1) {
      DummiesInMembers(Observations(tids, a, objs), objs, ds[k]);
      NumberedIds(objs, ds, k);
    }
    forall x | 0 <= x < |objs| && !objs[x].dummy ensures Numbered(objs, ds)[x].id == objs[x].id {
      DummiesInMembers(Observations(tids, a, objs), objs, x);
      NumberedKeeps(objs, ds, x);
    }
  }
}
