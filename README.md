# btrack track manager: reconciliation pass

This project models the core of btrack's `TrackManager` (file
`btrack/src/manager.cc`): the pass that takes the hypotheses chosen by the
optimiser and rewrites the tracklet store to match them. The pass:

- **classifies the hypotheses.** Every hypothesis writes its kind into its
  source tracklet's fate. `Plink` hypotheses go onto a link table and
  `Pdivn` hypotheses onto a division table. Both tables are keyed by source
  ID and have one slot per live track. `Pmrge` and the other kinds are
  recorded nowhere.
- **fuses link chains** (`join_tracks`). Slots are visited in ascending ID.
  An unused slot with a link starts a chain, and every target along the
  chain is appended to the chain's head. An absorbed tracklet is renamed to
  the head and flagged for removal, and the head takes its fate.
- **annotates divisions** (`branch_tracks`). Both children take the parent's
  effective ID as their parent: the ID the parent was renamed to if it was
  absorbed, else its own. The parent's fate becomes `Pdivn`.
- **erases** the flagged tracklets from the list of live tracks, keeping the
  order of the rest.
- **finalises** (`finalise`). Each surviving track loses its trailing
  placeholder ("dummy") observations. The remaining placeholders are
  numbered -1, -2, … in track-then-position order and listed in the dummy
  registry, which `get_dummy` reads back.

Tracklets live in an arena (`seq<Tracklet>`) whose slot is the tracklet's
ID, so a tracklet pointer and its ID are the same number. Observations live
in a second arena, and a track is a sequence of indices into it. Each step
of the pass is a method of the class `Manager.TrackManager` that changes
its fields in place. Every such method is proved equal to a function in one
of the modules `Classify`, `Chains`, `Lineage`, `Removal` and `Finalise`.
What the code promises is proved as lemmas about those functions.

The model follows the code where the code and its design description
disagree:

- **Which entry of a table slot is used.** Entries are pushed onto the end
  of a slot, and the chain and division loops read entry `[0]`. So the
  FIRST hypothesis for a source is the one acted on, not the most recent
  one. See `Classify.LinkTableFirst` and `Classify.BranchTableFirst`.
- **Cycles in the links.** The design asks the chain walk to stop at an
  already visited ID. The inner `while` of the code has no such check, so a
  cycle of links would never end. The model therefore requires the link
  table to be acyclic (`Chains.Acyclic`).
- **Uniqueness of dummy IDs.** The design states that dummy IDs are unique
  across the store. The code numbers every placeholder occurrence it scans.
  If an observation sits in two surviving tracks, it is numbered twice and
  keeps the later ID. Uniqueness is proved under the condition that no
  observation is shared (`Finalise.FinalisedRegistry`).

`Chains.LowerMemberJoinedTwice` shows one consequence of visiting chain
heads in ascending ID. Take the links 3 -> 1 and 1 -> 2. Slot 1 is visited
first and absorbs 2. Slot 3 then absorbs 1, which already holds 2's
observation, and follows the link 1 -> 2 once more. Tracklet 3 ends with
observation 2 twice. `Chains.IsolatedChainFused` states the intended
outcome for a chain whose head has the lowest ID and that nothing else
links into.

## Model

| member | source | states |
|---|---|---|
| Chains.JoinedFits | btrack/src/manager.cc:30-45 | A join only moves existing observation references between tracks. If every track fit the observation arena before, every track fits it after. |
| Manager.TrackManager.JoinTracks | btrack/src/manager.cc:30-45 | The append loop followed by the rename, the flag and the fate copy leaves the store equal to `Joined`: p's track extended by j's, p given j's fate, j renamed to p and flagged for removal, nothing else changed. |
| Manager.TrackManager.BranchTracks | btrack/src/manager.cc:50-82 | The children's parent becomes the parent's renamed ID when the parent is flagged, else the parent's own ID. The parent's fate becomes `Pdivn`. The store equals `Branched`. |
| Lineage.BranchedAt | btrack/src/manager.cc:50-82 | After a division, a slot can differ from before only in a child's parent (now the effective parent ID) or the parent's fate (now `Pdivn`). |
| Lineage.BranchedKeeps | btrack/src/manager.cc:50-82 | A division leaves every track, rename and removal flag alone. It changes the parent field of the two children only and the fate of the parent only. |
| Lineage.BranchedCommute | btrack/src/manager.cc:50-82 | Two divisions with disjoint children give the same store in either order. |
| Manager.TrackManager.Merge | btrack/src/manager.cc:87-226 | With no hypotheses or no live tracks, nothing changes. Otherwise the tables are the classified hypotheses, and the live tracks are the survivors of the reconciled store in their old order. Tracks are trimmed, the registry lists the remaining placeholders, and the observations are numbered by it. |
| Manager.TrackManager.Classify | btrack/src/manager.cc:104-151 | Fresh tables get one slot per live track. Afterwards the tables are `LinkTable`/`BranchTable` of the hypotheses and the fates are `ClassifyFates`. |
| Classify.ClassifiedFate | btrack/src/manager.cc:108-114 | Classification changes only fates. A tracklet no hypothesis names keeps its fate. One that is named takes the kind of the last hypothesis naming it. |
| Classify.LinkTableEntries | btrack/src/manager.cc:119-127 | Slot k of the link table holds (k, t) exactly when some `Plink` hypothesis from k targets t. |
| Classify.LinkTableFirst | btrack/src/manager.cc:119-127 | The first entry of slot k comes from the first `Plink` hypothesis from k. |
| Classify.BranchTableEntries | btrack/src/manager.cc:131-143 | Slot k of the division table holds (k, c1, c2) exactly when some `Pdivn` hypothesis of k names children c1 and c2. |
| Classify.BranchTableFirst | btrack/src/manager.cc:131-143 | The first entry of slot k comes from the first `Pdivn` hypothesis of k. |
| Classify.OtherKindsNotTabled | btrack/src/manager.cc:146-148 | A hypothesis of any kind other than `Plink` or `Pdivn` (`Pmrge` included) leaves both tables unchanged. |
| Manager.LinkTableKeyed | btrack/src/manager.cc:119-127 | When the hypotheses name live tracks only, every link table entry in slot k joins onto k and targets a slot of the table. |
| Manager.BranchTableFits | btrack/src/manager.cc:131-143 | When the hypotheses name live tracks only, every division table entry names tracklets of the store. |
| Chains.ChainStart | btrack/src/manager.cc:172-180 | On an acyclic table, a slot with a link joins onto itself, targets another slot, and that target's chain ends without coming back. |
| Manager.TrackManager.FollowLinks | btrack/src/manager.cc:186-193 | The inner `while` joins each next target onto the head and marks it used, until the tail has no link. The result equals `FollowChain`. |
| Manager.TrackManager.FuseChain | btrack/src/manager.cc:172-193 | Starting a chain marks the slot used, joins its first target, marks that used and follows the chain. |
| Manager.TrackManager.MergeStep | btrack/src/manager.cc:169-195 | One turn of the outer loop equals `Turn`: a chain starts only at an unused slot that has a link. |
| Manager.TrackManager.MergeLinkChains | btrack/src/manager.cc:165-196 | The chain loops leave the store equal to `MergeFrom` from slot 0 with an empty used set. |
| Chains.FollowChainOutside | btrack/src/manager.cc:186-193 | A walk started outside an isolated chain never reaches it, so it leaves the chain's members and their used marks alone. |
| Chains.FollowChainAlong | btrack/src/manager.cc:186-193 | Following an isolated chain from member m joins every later member onto the head, in order. |
| Chains.StartAtHead | btrack/src/manager.cc:172-193 | When the outer loop reaches the head of an untouched isolated chain, the whole chain is joined onto the head. |
| Chains.IsolatedChainFused | btrack/src/manager.cc:165-196 | For an isolated chain whose head has the lowest ID: the head holds every member's observations in chain order and the tail's fate, and keeps its own removal flag. Every other member is flagged and renamed straight to the head. All members are used. |
| Chains.LowerMemberJoinedTwice | btrack/src/manager.cc:169-193 | For links 3 -> 1 and 1 -> 2 over four single-observation tracklets, tracklet 3 ends as [3, 1, 2, 2]. |
| Manager.TrackManager.DivisionStep | btrack/src/manager.cc:204-208 | A slot with an entry applies its first entry, and the store stays valid. |
| Manager.TrackManager.AnnotateDivisions | btrack/src/manager.cc:202-210 | The division loop leaves the store equal to `BranchFrom` from slot 0. |
| Lineage.BranchFromKeeps | btrack/src/manager.cc:202-210 | The division loop changes no track, rename or removal flag. |
| Lineage.BranchFromSettled | btrack/src/manager.cc:202-210 | A division that already shows stays, as long as no later slot names either child. |
| Lineage.BranchFromLineage | btrack/src/manager.cc:202-210 | When no other slot names its children, the division at slot k shows after the loop. Its children carry the parent's effective ID as it stood before the loop (the rename left by chain fusion), and the parent is `Pdivn`. |
| Removal.Survivors | btrack/src/manager.cc:216-218 | The kept list is no longer than the input, refers to the store, and holds no flagged tracklet. |
| Removal.SurvivorsMembers | btrack/src/manager.cc:216-218 | A tracklet is kept exactly when it was live and is not flagged. |
| Removal.SurvivorsConcat | btrack/src/manager.cc:216-218 | Erasing distributes over concatenation, so the kept tracks stay in their relative order. |
| Removal.SurvivorsIdempotent | btrack/src/manager.cc:216-218 | Erasing a second time removes nothing more. |
| Manager.TrackManager.EraseRemoved | btrack/src/manager.cc:216-218 | The in-place `remove_if` then `erase` leaves exactly `Survivors` of the old list. |
| Finalise.Trimmed | btrack/src/manager.cc:242-243 | The trimmed track is a prefix of the track. Everything cut is a dummy, and the result does not end in a dummy. |
| Finalise.TrimmedUnique | btrack/src/manager.cc:242-243 | The prefix of the previous row is unique: any such prefix equals `Trimmed`. |
| Finalise.TrimmedIdempotent | btrack/src/manager.cc:242-243 | Trimming twice is trimming once. |
| Finalise.TrimAllEffect | btrack/src/manager.cc:240-243 | Finalising changes only the tracks of the live tracklets, each to its trimmed prefix. |
| Finalise.DummiesInMembers | btrack/src/manager.cc:246-253 | An observation is registered exactly when it occurs in a scanned track and is a dummy. |
| Finalise.DummiesInConcat | btrack/src/manager.cc:240-253 | The registry follows scan order: the listing for two scans one after the other is the concatenation of the listings. |
| Finalise.DummiesInDistinct | btrack/src/manager.cc:246-253 | When no observation is scanned twice, none is registered twice. |
| Finalise.NumberedKeeps | btrack/src/manager.cc:246-249 | Numbering changes only IDs, and only those of registered observations. |
| Finalise.NumberedIds | btrack/src/manager.cc:236-251 | When nothing is registered twice, the k-th registered placeholder gets ID -(k+1). |
| Finalise.FinalisedRegistry | btrack/src/manager.cc:230-255 | When no observation is shared between surviving tracks, no entry is registered twice and every entry is a dummy. Entry k has ID -(k+1), and every real observation keeps its ID. |
| Manager.TrackManager.NumberDummies | btrack/src/manager.cc:246-253 | Scanning one track gives each dummy the current ID, steps the ID down and registers the dummy. The counter stays at -(registry size)-1. |
| Manager.TrackManager.FinaliseTrack | btrack/src/manager.cc:242-253 | One outer turn trims the track and numbers its remaining dummies. |
| Manager.TrackManager.Finalise | btrack/src/manager.cc:230-255 | The registry is rebuilt from empty. Every live track is trimmed, the registry is `DummyList` of the live tracks, and the observations are numbered by it. |
| Finalise.DummyIndex | btrack/src/manager.cc:265 | `abs(a + 1)` of a negative ID a is the position n with a = -(n+1). |
| Finalise.DummyRoundTrip | btrack/src/manager.cc:259-273 | The ID given to entry k leads back to position k. Conversely, each negative ID down to -(registry size) is carried by the entry at its position. |
| Manager.TrackManager.GetDummy | btrack/src/manager.cc:259-273 | Given a negative ID, a non-empty registry and a dummy at the computed position, the result is a registered dummy. When the registry is numbered, it carries the requested ID. |

## Left out

- Console output under `DEBUG` and the hypothesis probabilities: they affect no state.
- `compare_hypothesis_time` (lines 21-24) is not called by the modelled code.
- `btrack/constants.py` is not part of this model. The fate kinds are the datatype `Types.Fate`.
- `manager.h` and the tracklet and hypothesis-map headers are not part of this model. `Tracklet::append`, `Tracklet::trim`, `to_remove`, `HypothesisMap::push` and `size()` are modelled from their described behaviour: append at the end, drop trailing dummies, a flag, push onto the end of a slot, and the number of live tracks.
- Shared-pointer ownership and aliasing: tracklets and observations are arena slots, and a pointer is its slot number.
- Manager.TrackManager.Merge: the link table must be acyclic. On a cycle the code's inner `while` never ends, so the model leaves that behaviour out.
- Manager.TrackManager.JoinTracks: requires p != j. Joining a tracklet onto itself would append to the track being read and never end.
- Manager.TrackManager.GetDummy: requires the computed position to be inside the registry. The code has no upper-bound check, so an ID below -(registry size) reads out of bounds.
- Finalise.FinalisedRegistry and Finalise.DummyRoundTrip: stated only when no observation is registered twice. An observation shared by two surviving tracks is numbered twice and keeps the later ID.
- Chains.IsolatedChainFused: stated only for a chain whose head has the lowest ID and that nothing else links into. Other shapes are order sensitive, as `Chains.LowerMemberJoinedTwice` shows.
- Finalise.DummyIndex: the `int` counter `dummy_ID` and `std::abs` are taken as unbounded integers. Wrap-around after 2^31 placeholders is not modelled.
- Manager.TrackManager.Merge and its per-step methods: these contracts use `old` and `unchanged`. Their content is carried by the lemmas about the functions they equal.
