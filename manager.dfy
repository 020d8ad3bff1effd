/** The track manager: the tracklet store, the observations its tracks refer
    to, the list of live tracks, the link and division tables of the last
    pass and the dummy registry. Each step of a reconciliation pass is a
    method that changes these fields in place, proved equal to the
    corresponding function of modules Classify, Chains, Lineage, Removal and
    Finalise. */
module Manager {
  import opened Types
  import opened Classify
  import opened Chains
  import opened Lineage
  import opened Removal
  import opened Finalise

  /** Hypotheses naming only live tracks build a link table keyed by source. */
  lemma LinkTableKeyed(hs: seq<Hypothesis>, n: nat)
    requires HypothesesBelow(hs, n)
    ensures SourcesBelow(hs, n) && Keyed(LinkTable(hs, n))
  {
    var t: seq<seq<JoinHypothesis>> := LinkTable(hs, n);
    forall k, m | 0 <= k < |t| && 0 <= m < |t[k]| ensures t[k][m].first == k && t[k][m].second < |t| {
      LinkTableEntries(hs, n, k, t[k][m]);
    }
  }

  /** Hypotheses naming only live tracks build a division table whose
      entries name tracklets of any arena of at least `n` slots. */
  lemma BranchTableFits(hs: seq<Hypothesis>, n: nat, m: nat)
    requires HypothesesBelow(hs, n) && n <= m
    ensures SourcesBelow(hs, n) && TableFits(BranchTable(hs, n), m)
  {
    var t: seq<seq<BranchHypothesis>> := BranchTable(hs, n);
    forall k, l | 0 <= k < |t| && 0 <= l < |t[k]| ensures BranchFits(t[k][l], m) {
      BranchTableEntries(hs, n, k, t[k][l]);
    }
  }

  /** The arena after classification, chain fusion and division annotation
      of a pass over `n` live tracks. */
  function Reconciled(a: seq<Tracklet>, hs: seq<Hypothesis>, n: nat): (r: seq<Tracklet>)
    requires HypothesesBelow(hs, n) && n <= |a| && Acyclic(LinkTable(hs, n))
    ensures |r| == |a|
  {
    LinkTableKeyed(hs, n);
    BranchTableFits(hs, n, |a|);
    var merged := MergeFrom(LinkTable(hs, n), ClassifyFates(a, hs), {}, 0).tracklets;
    BranchFrom(BranchTable(hs, n), merged, 0)
  }

  class TrackManager {
    /** The tracklet store, slot = tracklet ID. */
    var tracklets: seq<Tracklet>
    /** The observations the tracks refer to, slot = observation index. */
    var objects: seq<TrackObject>
    /** `m_tracks`: the IDs of the live tracks, in store order. */
    var tracks: seq<nat>
    /** `m_links`: per source ID, the link hypotheses from it. */
    var links: seq<seq<JoinHypothesis>>
    /** `m_branches`: per source ID, the division hypotheses of it. */
    var branches: seq<seq<BranchHypothesis>>
    /** `m_dummies`: the registry of numbered placeholder observations. */
    var dummies: seq<nat>

    /** Live tracks are tracklets of the store, every track refers to
        existing observations, and so does the registry. */
    ghost predicate Valid()
      reads this
    {
      && IndicesBelow(tracks, |tracklets|) && |tracks| <= |tracklets|
      && ArenaFits(tracklets, objects)
      && IndicesBelow(dummies, |objects|)
    }

    /** `join_tracks(p, j)`: append j's observations one by one to p, then
        rename j to p, flag j for removal and give p j's fate. */
    method JoinTracks(p: nat, j: nat)
      requires p < |tracklets| && j < |tracklets| && p != j
      modifies this`tracklets
      ensures tracklets == Joined(old(tracklets), p, j)
    {
      ghost var a0 := tracklets;
      var i := 0;
      assert a0[p].track + a0[j].track[..0] == a0[p].track;
      assert a0[p := a0[p]] == a0;
      while i < |tracklets[j].track|
        invariant |tracklets| == |a0| && 0 <= i <= |a0[j].track|
        invariant tracklets == a0[p := a0[p].(track := a0[p].track + a0[j].track[..i])]
      {
        assert tracklets[j] == a0[j];
        assert a0[j].track[..i + 1] == a0[j].track[..i] + [a0[j].track[i]];
        assert a0[p].track + a0[j].track[..i + 1] == (a0[p].track + a0[j].track[..i]) + [a0[j].track[i]];
        tracklets := tracklets[p := tracklets[p].(track := tracklets[p].track + [tracklets[j].track[i]])];
        i := i + 1;
      }
      assert a0[j].track[..i] == a0[j].track;
      tracklets := tracklets[j := tracklets[j].(renamedID := p, toRemove := true)];
      tracklets := tracklets[p := tracklets[p].(fate := tracklets[j].fate)];
    }

    /** The classification loop of `merge`: fresh tables with one slot per
        live track, every hypothesis sets its source's fate, links and
        divisions are pushed onto their source's slot. */
    method Classify(hs: seq<Hypothesis>)
      requires Valid() && HypothesesBelow(hs, |tracks|)
      modifies this`tracklets, this`links, this`branches
      ensures Valid() && SourcesBelow(hs, |tracklets|)
      ensures links == LinkTable(hs, |tracks|) && branches == BranchTable(hs, |tracks|)
      ensures tracklets == ClassifyFates(old(tracklets), hs)
    {
      var n := |tracks|;
      assert SourcesBelow(hs, n) && SourcesBelow(hs, |tracklets|);
      links := seq(n, _ => []);
      branches := seq(n, _ => []);
      var i := 0;
      while i < |hs|
        invariant 0 <= i <= |hs| && |tracklets| == |old(tracklets)|
        invariant Valid()
        invariant links == LinkTable(hs[..i], n) && branches == BranchTable(hs[..i], n)
        invariant tracklets == ClassifyFates(old(tracklets), hs[..i])
      {
        var h := hs[i];
        assert hs[..i + 1][..i] == hs[..i] && hs[..i + 1][i] == h;
        tracklets := tracklets[h.trkID := tracklets[h.trkID].(fate := h.hypothesis)];
        if h.hypothesis == Plink {
          links := links[h.trkID := links[h.trkID] + [JoinHypothesis(h.trkID, h.trkLinkID)]];
        } else if h.hypothesis == Pdivn {
          branches := branches[h.trkID := branches[h.trkID] + [BranchHypothesis(h.trkID, h.trkChildOneID, h.trkChildTwoID)]];
        }
        i := i + 1;
      }
      assert hs[..i] == hs;
    }

    /** The inner `while` of the chain loops: as long as the current tail
        `child` links on, join its target onto the head `i` and mark the
        target used. */
    method FollowLinks(i: nat, child: nat, used: set<nat>) returns (used': set<nat>)
      requires Valid() && Keyed(links) && |links| <= |tracklets| && i < |links| && child < |links|
      requires links[i] != [] && links[i][0].first == i
      requires Ends(links, child, |links| - 1) && Avoids(links, child, i, |links| - 1)
      modifies this`tracklets
      ensures Valid() && |tracklets| == |old(tracklets)|
      ensures ChainState(tracklets, used') == FollowChain(links, old(tracklets), used, i, child, |links| - 1)
    {
      ghost var fuel: nat := |links| - 1;
      var tail: nat := child;
      used' := used;
      while links[tail] != []
        invariant tail < |links| && |tracklets| == |old(tracklets)|
        invariant Valid()
        invariant Ends(links, tail, fuel) && Avoids(links, tail, i, fuel)
        invariant FollowChain(links, tracklets, used', i, tail, fuel)
          == FollowChain(links, old(tracklets), used, i, child, |links| - 1)
        decreases fuel
      {
        var next := links[tail][0].second;
        ghost var a := tracklets;
        JoinTracks(links[i][0].first, next);
        JoinedFits(a, objects, i, next);
        tail := next;
        used' := used' + {tail};
        fuel := fuel - 1;
      }
    }

    /** One chain of the chain loops, started at slot `i`: the slot is
        marked used, its first link's target is joined onto it and marked
        used, and the chain is followed from there. */
    method FuseChain(i: nat, used: set<nat>) returns (used': set<nat>)
      requires Valid() && Keyed(links) && |links| <= |tracklets| && i < |links| && links[i] != []
      requires links[i][0].first == i && links[i][0].second < |links| && links[i][0].second != i
      requires Ends(links, links[i][0].second, |links| - 1) && Avoids(links, links[i][0].second, i, |links| - 1)
      modifies this`tracklets
      ensures Valid() && |tracklets| == |old(tracklets)|
      ensures ChainState(tracklets, used') ==
        FollowChain(links, Joined(old(tracklets), i, links[i][0].second), used + {i} + {links[i][0].second},
                    i, links[i][0].second, |links| - 1)
    {
      used' := used + {i};
      var child := links[i][0].second;
      ghost var a := tracklets;
      JoinTracks(links[i][0].first, child);
      JoinedFits(a, objects, i, child);
      used' := used' + {child};
      used' := FollowLinks(i, child, used');
    }

    /** One turn of the outer chain loop: slot `i` starts a chain if it has
        a link and is not used yet. */
    method MergeStep(i: nat, used: set<nat>) returns (used': set<nat>)
      requires Valid() && Keyed(links) && Acyclic(links) && |links| <= |tracklets| && i < |links|
      modifies this`tracklets
      ensures Valid()
      ensures ChainState(tracklets, used') == Turn(links, old(tracklets), used, i)
    {
      if links[i] != [] && i !in used {
        ChainStart(links, i);
        used' := FuseChain(i, used);
      } else {
        used' := used;
      }
    }

    /** The chain loops of `merge`: every slot with a link that is not yet
        used starts a chain. */
    method MergeLinkChains()
      requires Valid() && Keyed(links) && Acyclic(links) && |links| <= |tracklets|
      modifies this`tracklets
      ensures Valid()
      ensures tracklets == MergeFrom(links, old(tracklets), {}, 0).tracklets
    {
      var used: set<nat> := {};
      var i := 0;
      while i < |links|
        invariant 0 <= i <= |links| && |tracklets| == |old(tracklets)|
        invariant Valid()
        invariant MergeFrom(links, tracklets, used, i) == MergeFrom(links, old(tracklets), {}, 0)
      {
        used := MergeStep(i, used);
        i := i + 1;
      }
      MergeFromDone(links, tracklets, used);
    }

    /** `branch_tracks(b)`: both children take the parent's effective ID as
        their parent, then the parent's fate becomes `Pdivn`. */
    method BranchTracks(b: BranchHypothesis)
      requires BranchFits(b, |tracklets|)
      modifies this`tracklets
      ensures tracklets == Branched(old(tracklets), b)
    {
      var id: nat;
      if tracklets[b.parent].toRemove {
        id := tracklets[b.parent].renamedID;
      } else {
        id := b.parent;
      }
      tracklets := tracklets[b.childOne := tracklets[b.childOne].(parent := id)];
      tracklets := tracklets[b.childTwo := tracklets[b.childTwo].(parent := id)];
      tracklets := tracklets[b.parent := tracklets[b.parent].(fate := Pdivn)];
    }

    /** One turn of the division loop: slot `i` applies its first entry,
        if it has one. */
    method DivisionStep(i: nat)
      requires Valid() && TableFits(branches, |tracklets|) && i < |branches|
      modifies this`tracklets
      ensures Valid()
      ensures tracklets == DivisionAt(branches, old(tracklets), i)
    {
      if branches[i] != [] {
        ghost var a := tracklets;
        BranchTracks(branches[i][0]);
        forall k | 0 <= k < |tracklets| ensures IndicesBelow(tracklets[k].track, |objects|) {
          BranchedKeeps(a, branches[i][0], k);
        }
      }
    }

    /** The division loop of `merge`: every slot with an entry applies its
        first entry. */
    method AnnotateDivisions()
      requires Valid() && TableFits(branches, |tracklets|)
      modifies this`tracklets
      ensures Valid()
      ensures tracklets == BranchFrom(branches, old(tracklets), 0)
    {
      var i := 0;
      while i < |branches|
        invariant 0 <= i <= |branches| && |tracklets| == |old(tracklets)|
        invariant Valid()
        invariant BranchFrom(branches, tracklets, i) == BranchFrom(branches, old(tracklets), 0)
      {
        DivisionStep(i);
        i := i + 1;
      }
    }

    /** The erase step of `merge` (`remove_if` then `erase`): the kept IDs
        are moved down over the flagged ones, in order, and the tail is cut. */
    method EraseRemoved()
      requires Valid()
      modifies this`tracks
      ensures Valid()
      ensures tracks == Survivors(old(tracks), tracklets)
    {
      var w := 0;
      var r := 0;
      while r < |tracks|
        invariant 0 <= w <= r <= |tracks| == |old(tracks)|
        invariant IndicesBelow(tracks, |tracklets|)
        invariant tracks[r..] == old(tracks)[r..]
        invariant tracks[..w] == Survivors(old(tracks)[..r], tracklets)
      {
        assert old(tracks)[..r + 1][..r] == old(tracks)[..r];
        assert tracks[r] == old(tracks)[r];
        if !tracklets[tracks[r]].toRemove {
          tracks := tracks[w := tracks[r]];
          w := w + 1;
        }
        r := r + 1;
      }
      assert old(tracks)[..r] == old(tracks);
      tracks := tracks[..w];
    }

    /** The inner loop of `finalise`: each dummy of `trk`, in order,
        receives the ID `dummyID`, which then steps down by one, and is
        pushed onto the registry. `seen` is what the registry lists so far:
        the observations scanned before `trk`. */
    method NumberDummies(trk: seq<nat>, ghost seen: seq<nat>, ghost o0: seq<TrackObject>, dummyID: int)
      returns (dummyID': int)
      requires IndicesBelow(trk, |o0|) && IndicesBelow(seen, |o0|)
      requires dummies == DummiesIn(seen, o0)
      requires objects == Numbered(o0, dummies) && dummyID == -|dummies| - 1
      modifies this`objects, this`dummies
      ensures IndicesBelow(seen + trk, |o0|)
      ensures dummies == DummiesIn(seen + trk, o0)
      ensures objects == Numbered(o0, dummies) && dummyID' == -|dummies| - 1
    {
      dummyID' := dummyID;
      var ds := dummies;
      var objs := objects;
      var o := 0;
      assert seen + trk[..0] == seen;
      while o < |trk|
        invariant 0 <= o <= |trk| && |objs| == |o0|
        invariant IndicesBelow(seen + trk[..o], |o0|)
        invariant ds == DummiesIn(seen + trk[..o], o0)
        invariant objs == Numbered(o0, ds)
        invariant dummyID' == -|ds| - 1
      {
        var x := trk[o];
        ScanStep(seen, trk, o);
        DummiesInAppend(seen + trk[..o], x, o0);
        NumberedKeeps(o0, ds, x);
        if objs[x].dummy {
          NumberedStep(o0, ds, x);
          objs := objs[x := objs[x].(id := dummyID')];
          dummyID' := dummyID' - 1;
          ds := ds + [x];
        }
        o := o + 1;
      }
      assert trk[..o] == trk;
      dummies := ds;
      objects := objs;
    }

    /** One turn of `finalise`'s outer loop: track `t` is trimmed and its
        remaining dummies are numbered; `tids` are the tracks done before. */
    method FinaliseTrack(t: nat, ghost tids: seq<nat>, ghost a0: seq<Tracklet>, ghost o0: seq<TrackObject>,
                         dummyID: int) returns (dummyID': int)
      requires ArenaFits(a0, o0) && t < |a0| && IndicesBelow(tids, |a0|)
      requires tracklets == TrimAll(a0, tids, o0)
      requires dummies == DummiesIn(Observations(tids, a0, o0), o0)
      requires objects == Numbered(o0, dummies) && dummyID == -|dummies| - 1
      modifies this`tracklets, this`objects, this`dummies
      ensures IndicesBelow(tids + [t], |a0|)
      ensures tracklets == TrimAll(a0, tids + [t], o0)
      ensures dummies == DummiesIn(Observations(tids + [t], a0, o0), o0)
      ensures objects == Numbered(o0, dummies) && dummyID' == -|dummies| - 1
    {
      ghost var trimmed := Trimmed(a0[t].track, o0);
      assert Trimmed(tracklets[t].track, objects) == trimmed by {
        TrimAllEffect(a0, tids, o0, t);
        NumberedSameFlags(o0, dummies);
        TrimmedSameFlags(tracklets[t].track, objects, o0);
        TrimmedIdempotent(a0[t].track, o0);
      }
      assert tracklets[t := tracklets[t].(track := trimmed)] == TrimAll(a0, tids + [t], o0) by {
        TrimAllEffect(a0, tids, o0, t);
        TrimmedIdempotent(a0[t].track, o0);
        TrimAllStep(a0, tids, o0, t);
      }
      tracklets := tracklets[t := tracklets[t].(track := Trimmed(tracklets[t].track, objects))];
      var trk := tracklets[t].track;
      TrimmedIdempotent(a0[t].track, o0);
      ObservationsStep(tids, a0, o0, t);
      dummyID' := NumberDummies(trk, Observations(tids, a0, o0), o0, dummyID);
    }

    /** `finalise`: the registry is emptied; then, track by track, the track
        is trimmed and its remaining dummies are numbered. */
    method Finalise()
      requires Valid()
      modifies this`tracklets, this`objects, this`dummies
      ensures Valid()
      ensures tracklets == TrimAll(old(tracklets), tracks, old(objects))
      ensures dummies == DummyList(tracks, old(tracklets), old(objects))
      ensures objects == Numbered(old(objects), dummies)
    {
      ghost var a0 := tracklets;
      ghost var o0 := objects;
      var dummyID: int := -1;
      dummies := [];
      var i := 0;
      while i < |tracks|
        invariant 0 <= i <= |tracks| && |tracklets| == |a0| && |objects| == |o0|
        invariant Valid()
        invariant tracklets == TrimAll(a0, tracks[..i], o0)
        invariant dummies == DummiesIn(Observations(tracks[..i], a0, o0), o0)
        invariant objects == Numbered(o0, dummies)
        invariant dummyID == -|dummies| - 1
      {
        PrefixStep(tracks, i);
        dummyID := FinaliseTrack(tracks[i], tracks[..i], a0, o0, dummyID);
        TrimAllFits(a0, tracks[..i + 1], o0);
        i := i + 1;
      }
      assert tracks[..i] == tracks;
    }

    /** The registry is numbered: entry k holds the ID -(k+1). */
    ghost predicate Registered()
      reads this
    {
      forall k :: 0 <= k < |dummies| ==> dummies[k] < |objects| && objects[dummies[k]].id == -(k + 1)
    }

    /** `get_dummy(a)`: the registry entry at `std::abs(a + 1)`; the caller
        must pass a negative ID, the registry must be non-empty and the entry
        must be a dummy. The code has no upper-bound check, so the position
        must be in range. */
    function GetDummy(a: int): (o: nat)
      reads this
      requires a < 0 && dummies != [] && DummyIndex(a) < |dummies|
      requires IndicesBelow(dummies, |objects|) && objects[dummies[DummyIndex(a)]].dummy
      ensures o in dummies && o < |objects| && objects[o].dummy
      ensures Registered() ==> objects[o].id == a
    {
      dummies[DummyIndex(a)]
    }

    /** `merge(hs)`: nothing happens when there are no hypotheses or no live
        tracks; otherwise classify, fuse link chains, annotate divisions,
        erase the absorbed tracks and finalise. */
    method Merge(hs: seq<Hypothesis>)
      requires Valid()
      requires hs != [] && tracks != [] ==> HypothesesBelow(hs, |tracks|) && Acyclic(LinkTable(hs, |tracks|))
      modifies this
      ensures Valid()
      ensures hs == [] || old(tracks) == [] ==> unchanged(this)
      ensures hs != [] && old(tracks) != [] ==>
        && links == LinkTable(hs, |old(tracks)|)
        && branches == BranchTable(hs, |old(tracks)|)
        && ArenaFits(Reconciled(old(tracklets), hs, |old(tracks)|), old(objects))
        && tracks == Survivors(old(tracks), Reconciled(old(tracklets), hs, |old(tracks)|))
        && tracklets == TrimAll(Reconciled(old(tracklets), hs, |old(tracks)|), tracks, old(objects))
        && dummies == DummyList(tracks, Reconciled(old(tracklets), hs, |old(tracks)|), old(objects))
        && objects == Numbered(old(objects), dummies)
    {
      if hs == [] {
        return;
      }
      if tracks == [] {
        return;
      }
      var n := |tracks|;
      Classify(hs);
      LinkTableKeyed(hs, n);
      MergeLinkChains();
      BranchTableFits(hs, n, |tracklets|);
      AnnotateDivisions();
      EraseRemoved();
      Finalise();
    }
  }
}
