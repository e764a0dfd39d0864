# Models of the Studio's layout, its control-surface documents and two small tools

This project models five parts of KSX in Dafny and proves what they promise.
Check it with `dafny verify dfyconfig.toml`.

**Macro cards and the mapping graph** (`Geometry`, `Slide`, `Lattice`,
`Placement`, `Strings`, `RouteIds`, `FlowGraph`, `FlowMeaning`, `FlowOrder`). A
macro card looks for a place on screen: on a lattice walked ring by ring, then by
an exact one-axis slide, under weaker and weaker obstacle sets. Cards that find
none are folded into an overflow bank. The graph of keys, macros and controls is
derived by loops and proved to mean what the pads' bindings and macros mean, in
the order promised. Screen geometry is exact, over the reals.

**Keyboard packing** (`Packing`, `PackingLayout`, `Leverless`). Greedy row
breaking under a ladder of scales, in twentieths; coordinates are thousandths of
a board unit and row origins are halves of a thousandth before rounding.

**The control-surface document** (`SurfaceText`, `SurfaceKeys`, `Surface`,
`SurfaceFrames`, `PlayerGrid`, `SurfaceEdits`, `SurfaceBuild`, `SurfaceStable`,
`SurfaceSurvivors`, `SurfaceSettling`, `SurfaceOnePass`, `SurfaceInvariant`,
`SurfaceBuilt`, `SurfaceStarts`, `SurfaceMapping`, `SurfaceLayouts`,
`SurfaceRuns`, `SurfaceMirror`, `SurfaceTeach`, `SurfaceSweep`, `SurfaceClaims`,
`SurfaceHistory`, `SurfaceStored`, `SurfaceLaws`, `SurfaceTables`). What the
sanitizer keeps of a stored document and how soon it settles any, every edit,
the templates with their build context and their layout, the Workbench
migration, the device-authority sweep, and an invariant of all runs of edits.

**The driver installer** (`Lease`, `Installer`). The coordinators and workers as
a timed protocol with crashes, and the work on disk with its exit codes.

**Polling and the feedback queue** (`Poll`, `FeedbackQueue`). Superseding
requests across awaits in any interleaving, and a bounded drop-oldest queue
purged in place.

Code that updates variables, fields or buffers step by step is modelled by
methods and classes proved against functions; the properties are lemmas about
those functions.

Inputs the models take as given: element rectangles and sizes, the wanted point
of a card, the camera (pan and zoom, with an exact inverse), the locale's
comparison of names, the device roster, the outcome of file, network and process
operations, the order in which answers arrive, and the bytes a frame encodes to.

Where the code does less than one might expect, the exact condition is proved:

- Cleaning a string twice can differ from cleaning it once
  (`SurfaceText.CleanIsIdempotentIff`, with `CleanIsNotIdempotent`); so can
  cleaning a frame (`SurfaceFrames.FrameSettlesInOneIff`, with `FrameNeedsTwo`).
  Twice is always enough for both.
- A stored document may need two or three passes of the sanitizer
  (`SurfaceOnePass.SanitizeAgainIff`, `TwoPassesSufficeIff`, with
  `TwoPassesAreTooFew`); three are always enough
  (`SurfaceSettling.SanitizeSettlesInThree`).
- Two macros of one name, slot and preset share an identity, so a key of one
  reaches an output of the other (`FlowMeaning.FlowReachesExactly`, with
  `NamesakesCross`), and segments of both can share an id
  (`FlowMeaning.FlowIdsAreDistinctIff`, with `NamesakesShareIds`).
- A mirror resolution whose selected control is settled can leave one switch with
  two claims (`SurfaceRuns.MirrorKeepsSwitchesIff`, with
  `SurfaceMirror.MirrorOnStickCanDisagree`); it is the only edit that can
  (`SurfaceHistory.RunsAreSafeIff`).
- Teaching one switch can confirm an open question of another
  (`SurfaceRuns.TeachTouchesOneSwitchIff`, with
  `SurfaceTeach.TeachingConfirmsAnother`).
- Generated controls whose keys only clean alike carry one key and are not flagged
  (`SurfaceMapping.FlagsMeanSharingIff`, with `CleanedKeysCanMerge`).
- The sweep judges a device by its name before the last cleaning, so it can leave
  a channel dishonest and change it again later (`SurfaceSweep.SweepIsHonestIff`,
  `SweepTwiceIff`, with `SurfaceClaims.SweepCanLeaveDishonest`); two sweeps, and
  the store's sweep, always leave every channel honest
  (`SurfaceSweep.TwoSweepsAreHonest`, `StoreIsHonest`).
- The sweep can leave views of a switch in disagreement when only one of them is
  linked to a terminal (`SurfaceSweep.SweepKeepsSwitchesIff`, with
  `SurfaceClaims.SweepCanSplitSwitch`).
- Generated ids stop being fresh when the safe integers run out
  (`SurfaceHistory.NextIsUnusedIff`, `NextIsUnusedAfterCopyIff`, with
  `NumbersCanRunOut`).
- More than 25 controls of one player overlap on a four-player panel, and more
  than 40 on a panel of one's own (`PlayerGrid.GridIsOverlapFreeIff`,
  `SurfaceLayouts.FourIsSeparateIff`, `SelectedIsSeparateIff`).
- The staging lease is safe under delays exactly while they stay below the
  quarantine together (`Lease.LeaseIsSafeIff`).
- A poll issued between the headers and the body of the newest request lets the
  stored validator name a body that was never shown
  (`Poll.CoherentRunIff`, with `ValidatorCanOutrunPage`).

## Model

| member | source | states |
|---|---|---|
| Geometry.ClampIsNearest | studio-ui/src/mappingFlow.ts:2439-2440 | The clamp used by every search is the admissible value nearest to its argument, the lower bound winning when the bounds cross |
| Geometry.ApartIff | studio-ui/src/mappingFlow.ts:2452-2456 | Rectangles are apart exactly when no point of one is within the gap of a point of the other on both axes |
| Geometry.ClearIff | studio-ui/src/mappingFlow.ts:2452-2456 | A card is clear of obstacles exactly when its claim is apart from each, touching allowed |
| Slide.Consider | studio-ui/src/mappingFlow.ts:2541-2547 | Offering a candidate keeps a free admissible best that is at least as near as every candidate offered |
| Slide.NearestFree | studio-ui/src/mappingFlow.ts:2531-2554 | The result is a closest admissible value outside every open forbidden interval, and none exactly when there is no such value |
| Slide.CandidatesSuffice | studio-ui/src/mappingFlow.ts:2528-2554 | For any admissible free value some candidate (the centre or an interval edge, clamped) is free and at least as near |
| Slide.Forbidden | studio-ui/src/mappingFlow.ts:2557-2576 | A coordinate is free of the projected intervals exactly when the slid card covers none of the first set and keeps the margin from the second |
| Slide.SlideAlong | studio-ui/src/mappingFlow.ts:2577-2583 | Along one axis: a shortest clearing slide, none exactly when no slide on that axis clears, so the final blocked filter never rejects |
| Slide.SlideClear | studio-ui/src/mappingFlow.ts:2521-2594 | A shortest single-axis move that clears all obstacles, and none exactly when no such move exists |
| Lattice.RingSpec | studio-ui/src/mappingFlow.ts:2485-2492 | One ring offers each offset of that radius exactly once |
| Lattice.RingsSpec | studio-ui/src/mappingFlow.ts:2470-2494 | The walk offers each offset within the radius exactly once, in nondecreasing ring order |
| Lattice.NearestClearIsInnermost | studio-ui/src/mappingFlow.ts:2495-2503 | The chosen point is clear and lies on the innermost ring that has a clear point; none exactly when every lattice point is blocked |
| Lattice.Offer | studio-ui/src/mappingFlow.ts:2472-2479 | Skipping a clamped point seen before never loses the answer |
| Lattice.WalkRing | studio-ui/src/mappingFlow.ts:2485-2492 | Walking one ring with the set of seen points finds its first clear offset |
| Lattice.NearestClear | studio-ui/src/mappingFlow.ts:2470-2503 | The walk with de-duplication returns the first clear point of the walk without it |
| Lattice.MaxRadiusSpans | studio-ui/src/mappingFlow.ts:2462-2467 | The radius bound spans the viewport on both axes |
| Lattice.RadiusSpansOneMore | studio-ui/src/mappingFlow.ts:2464-2467 | The radius is the least whose walk spans both extents of the viewport with one step to spare |
| Lattice.LatticeReachesCorners | studio-ui/src/mappingFlow.ts:2462-2494 | The bounded walk reaches every corner of the admissible range |
| Placement.CameraRoundTrip | studio-ui/src/mappingFlow.ts:2431-2434 | Projecting an answer into the world and back gives the same screen point |
| Placement.Adjust | studio-ui/src/mappingFlow.ts:2639-2647 | The first rung of the ladder of weaker obstacle sets that has an answer decides |
| Placement.LadderSparesNavigator | studio-ui/src/mappingFlow.ts:2638-2646 | With a navigator on screen the card keeps 12 px from it whenever a lattice point, its slide or the last walk has an answer that does, on the innermost ring with one; a rung drops it only when none has |
| Placement.SlideSparesNavigator | studio-ui/src/mappingFlow.ts:2641-2645 | A slide that spares the navigator is a shortest one and keeps 12 px from it |
| Placement.LadderWithoutNavigator | studio-ui/src/mappingFlow.ts:2638-2646 | Without a navigator: the innermost lattice point clear of widgets and cards, else for an automatic card with live endpoints a shortest slide, else the innermost clear of cards alone |
| Placement.ManualTakesLatticePoint | studio-ui/src/mappingFlow.ts:2638-2646 | A hand-placed card is never slid: its answer is the innermost lattice point clear of the strongest obstacle set that leaves one |
| Placement.WishIsGranted | studio-ui/src/mappingFlow.ts:2436-2446 | An admissible wish clear of widgets, cards and navigator is granted unchanged |
| Placement.AdmitsIff | studio-ui/src/mappingFlow.ts:2425-2444 | A centre is admissible exactly when the card's claim (120 by 72 at least) stays 12 px inside the viewport; a wish is moved only on the axes it breaks |
| Placement.LatticeIsSpaced | studio-ui/src/mappingFlow.ts:2462-2494 | Neighbouring unclamped lattice points are a claim and 24 px apart, and the walk spans the viewport with one step to spare and no more |
| Placement.AnswerIsAdmitted | studio-ui/src/mappingFlow.ts:2436-2594 | Every answer of the ladder is admissible whenever any centre is |
| Placement.LadderKeepsPlaced | studio-ui/src/mappingFlow.ts:2639-2647 | Every rung keeps the margin from the cards placed before, and with no card placed there is always an answer |
| Placement.LadderRefuses | studio-ui/src/mappingFlow.ts:2641-2647 | The ladder refuses exactly when every rung does, which needs every lattice point blocked by placed cards alone |
| Placement.AutomaticCardSparesEndpoints | studio-ui/src/mappingFlow.ts:2613-2646 | An automatic card covers a live endpoint only when no lattice point cleared the widgets and no slide spared every endpoint, or when the endpoint lies at no widget |
| Placement.PlaceNext | studio-ui/src/mappingFlow.ts:2249-2345 | One processor: past the limit, without anchors or without a place it is hidden; otherwise its card answers the ladder |
| Placement.PlaceCards | studio-ui/src/mappingFlow.ts:2248-2348 | The pass puts every processor in exactly one of cards and overflow, for the stated cause, with cards pairwise 12 px apart |
| Placement.LayoutProcessors | studio-ui/src/mappingFlow.ts:2248-2408 | Cards and bank are pairwise 12 px apart, every processor is in exactly one of them, the bank folds as few last cards as possible, and a nonempty overflow always gets a bank |
| Placement.BankIsPlaced | studio-ui/src/mappingFlow.ts:2374-2403 | When the fold loop stops the bank has a place, so the null guard after it is dead |
| Placement.BankIsTopCentre | studio-ui/src/mappingFlow.ts:2349-2372 | The bank wishes for the middle of the upper edge with its claim 12 px below it |
| Placement.LimitIs | studio-ui/src/mappingFlow.ts:2237-2240 | Cards and bank together are at most 2, 3 or 5 as the viewport is up to 600, up to 900 or wider, and nothing is held back while all fit |
| Strings.JoinIsInjective | studio-ui/src/mappingFlow.ts:358-362 | Separator-free parts are recovered from their join |
| Strings.ParsePrint | studio-ui/src/controlSurface.ts:454-459 | Parsing the printed number gives the number back |
| Strings.DistinctCount | studio-ui/src/controlSurface.ts:957-963 | A list without repeats has as many elements as its set |
| Strings.DistinctKeepsFirst | studio-ui/src/mappingFlow.ts:318-360 | Removing repeats keeps each element where it appears first |
| Strings.SortIsInOrder | studio-ui/src/mappingFlow.ts:320-347 | For a total and transitive comparison the sort puts every element before all later ones |
| Strings.SortIsStable | studio-ui/src/mappingFlow.ts:320-347 | Elements the comparison puts level keep their order |
| RouteIds.DecodeEncode | studio-ui/src/mappingFlow.ts:287-292 | Percent-encoding (section 2.1 of RFC 3986) of every string decodes back to it |
| RouteIds.EncodeAvoidsColon | studio-ui/src/mappingFlow.ts:287-292 | Encoded parts never contain the separator |
| RouteIds.RouteIdIsInjective | studio-ui/src/mappingFlow.ts:358-362 | Distinct bindings, triggers, outputs and processors have distinct ids, across kinds too |
| FlowGraph.DeriveDirectMappingFlow | studio-ui/src/mappingFlow.ts:315-385 | The loops with their set of seen signatures give the first binding of each (slot, key, function), in order |
| FlowGraph.DistinctOutputs | studio-ui/src/mappingFlow.ts:420-432 | The loop keeps the first output of each function with its positive steps, distinct and in order |
| FlowGraph.AddMacro | studio-ui/src/mappingFlow.ts:433-484 | One processor, one segment for each trigger and each output |
| FlowGraph.DeriveMappingFlow | studio-ui/src/mappingFlow.ts:391-488 | The graph is the direct bindings of available pads, then each available macro's segments, with the slots whose projections are missing |
| FlowGraph.TouchesAreDistinct | studio-ui/src/mappingFlow.ts:420-432 | Outputs name each function once, in order of first appearance |
| FlowOrder.StepsAscend | studio-ui/src/mappingFlow.ts:428-430 | The steps of an output are exactly its positive steps, strictly increasing |
| FlowOrder.MacrosByName | studio-ui/src/mappingFlow.ts:415-417 | The macros of a pad come in the locale's order of their names |
| FlowOrder.ProcessorsInOrder | studio-ui/src/mappingFlow.ts:401-418 | Processors stand by nondecreasing slot, and with distinct slots those of one pad by name |
| FlowOrder.MissingInOrder | studio-ui/src/mappingFlow.ts:401-414 | The unavailable slots are exactly those of pads without that part, nondecreasing |
| FlowOrder.BindingsKeepFirst | studio-ui/src/mappingFlow.ts:351-381 | A binding stands where its pad, key and function first appear, and no other candidate gives one |
| FlowOrder.DirectRoutesInOrder | studio-ui/src/mappingFlow.ts:320-383 | The binding segments stand by nondecreasing slot |
| FlowOrder.EntriesInOrder | studio-ui/src/mappingFlow.ts:321-350 | A pad's entries are its projected controls by zone and then name, followed by the listed functions they do not cover by name |
| FlowMeaning.EntryMeansBinding | studio-ui/src/mappingFlow.ts:321-350 | A pad's entries hold a key and a function exactly when a projected control of that name has the key, or none has that name and the compatibility list gives it |
| FlowMeaning.DirectRoutesMeanBindings | studio-ui/src/mappingFlow.ts:315-385 | A direct segment exists exactly when a pad of the slot binds the key to the function |
| FlowMeaning.FlowReachesExactly | studio-ui/src/mappingFlow.ts:391-488 | For all pads: a key reaches a control exactly by a direct binding or through two macros of one identity, one triggered, one outputting |
| FlowMeaning.NamesakesCross | studio-ui/src/mappingFlow.ts:391-488 | Two macros of one name in one preset, one only triggered and one only putting out, make the key reach a control that nothing drives from it |
| FlowMeaning.FlowPreservesMeaning | studio-ui/src/mappingFlow.ts:391-488 | With macro names distinct per slot and preset: a key reaches a control exactly when an available pad binds it or it triggers an available macro that outputs the function |
| FlowMeaning.MacroSegmentCount | studio-ui/src/mappingFlow.ts:455-484 | A macro adds exactly (distinct triggers + distinct outputs) segments |
| FlowMeaning.SegmentCount | studio-ui/src/mappingFlow.ts:455-484 | All macros together add the sum of those counts |
| FlowMeaning.BindingIdsAreDistinct | studio-ui/src/mappingFlow.ts:358-363 | Binding ids are pairwise distinct |
| FlowMeaning.FlowIdsAreDistinctIff | studio-ui/src/mappingFlow.ts:391-488 | All segment ids of a graph are pairwise distinct exactly when no two available macros of one slot, preset and name share a trigger key or an output function |
| FlowMeaning.NamesakesShareIds | studio-ui/src/mappingFlow.ts:391-488 | Two macros of one name in one preset that one key triggers give two segments one id |
| Packing.BreakRows | studio-ui/src/keyboardWorkbench.ts:563-577 | The loop splits the keys in order into nonempty rows, each closed only when the next key would not fit |
| Packing.SizesAre | studio-ui/src/keyboardWorkbench.ts:537-561 | An arcade button is 60 by 60 and a cap 58 high and 42 wider per unit beyond the first; a scale shrinks both and the gap of 12 to the nearest thousandth |
| Packing.EmitRows | studio-ui/src/keyboardWorkbench.ts:581-593 | The placing loops emit every row, centred, at its rounded position |
| Packing.PackAtScale | studio-ui/src/keyboardWorkbench.ts:552-599 | It reports that the keys fit exactly when some order-preserving split fits the region, and places the greedy rows |
| Packing.GreedyStaysAhead | studio-ui/src/keyboardWorkbench.ts:566-577 | Greedy rows are never more than those of any split whose rows fit the width |
| Packing.GreedyDecides | studio-ui/src/keyboardWorkbench.ts:594-598 | The fit test on greedy rows decides whether any split fits |
| Packing.LadderScale | studio-ui/src/keyboardWorkbench.ts:609-628 | The largest rung that any split fits, or the last rung when none does |
| Packing.CompactLayout | studio-ui/src/keyboardWorkbench.ts:601-630 | The loop returns the packing at that rung |
| PackingLayout.PlacedRow | studio-ui/src/keyboardWorkbench.ts:587-591 | A row's keys stand on one line in order, neighbours exactly the gap apart, no wider than the row |
| PackingLayout.PackingIsSound | studio-ui/src/keyboardWorkbench.ts:561-598 | A packing shows every key once in order; when it fits, all keys lie inside the region and any two are the gap apart, rounding included |
| PackingLayout.RoomForAll | studio-ui/src/keyboardWorkbench.ts:561-598 | A region with room for a grid of widest caps takes every selection of that many keys |
| PackingLayout.CompactAlwaysFits | studio-ui/src/keyboardWorkbench.ts:601-630 | Any selection of up to 128 keys of any cap width fits at 0.7 |
| PackingLayout.ActionsAlwaysFit | studio-ui/src/keyboardWorkbench.ts:648-692 | Any selection of up to 128 keys fits the leverless action region at 0.55 |
| PackingLayout.CompactBoard | studio-ui/src/keyboardWorkbench.ts:601-630 | Every key once in order; when the keys fit, inside the 18-unit margin, no overlap, and the packing itself, unchanged by the final clamp; up to 128 keys of any width always fit, at 0.7 or more |
| PackingLayout.ClampIs | studio-ui/src/keyboardWorkbench.ts:694-700 | Clamping moves a key no farther than to the edge it is beyond and keeps its size |
| Leverless.ChooseMovement | studio-ui/src/keyboardWorkbench.ts:652-672 | Each role takes its first candidate present; with none and four keys or more the first four stand in; claims are exactly the chosen keys |
| Leverless.RoleTable | studio-ui/src/keyboardWorkbench.ts:634-663 | Who takes a role: the letter key, or else the arrow |
| Leverless.FirstFourMove | studio-ui/src/keyboardWorkbench.ts:665-672 | Without any such key the first four move left, down, right and up |
| Leverless.TokenTable | studio-ui/src/keyboardWorkbench.ts:641-687 | A movement key is one token of 60 or 58 centred at its role's point, whatever its cap |
| Leverless.LeverlessBoard | studio-ui/src/keyboardWorkbench.ts:648-692 | Up to 128 keys: movement tokens in their places, the rest packed at 0.55 or more; every key exactly once, no overlap, all on the board, the clamp changes nothing |
| PlayerGrid.CeilRoot | studio-ui/src/controlSurface.ts:858 | The ceiling of the square root of 1.25 times the count |
| PlayerGrid.ColumnsLaw | studio-ui/src/controlSurface.ts:850-859 | The columns are the least number whose square reaches 1.25 times the count, up to five, and the rows as few as take the count |
| PlayerGrid.CellLaw | studio-ui/src/controlSurface.ts:850-885 | Cells go row by row, centred in the player's region of 548 by 314, at a pitch of the room left divided evenly up to 104 by 106, each to the nearest thousandth |
| PlayerGrid.GridStaysInQuadrant | studio-ui/src/controlSurface.ts:843-885 | For every count each control lies inside its player's region, rounding included |
| PlayerGrid.QuadrantsAreDisjoint | studio-ui/src/controlSurface.ts:860-867 | The four regions are pairwise disjoint and all on the board |
| PlayerGrid.GridIsOverlapFreeIff | studio-ui/src/controlSurface.ts:850-884 | Controls of one player are overlap-free exactly when there are at most 25 |
| SurfaceText.SettledMeans | studio-ui/src/controlSurface.ts:200-208 | Cleaning leaves a string alone exactly when it has no control characters, only single inner spaces, none at the ends, and at most the maximal length |
| SurfaceText.CleanTwiceSettles | studio-ui/src/controlSurface.ts:200-208 | Cleaning twice always reaches a string that cleaning leaves alone |
| SurfaceText.CleanIsIdempotentIff | studio-ui/src/controlSurface.ts:200-208 | Cleaning is idempotent on a string exactly when the cut does not fall right after a space |
| SurfaceText.CleanIsNotIdempotent | studio-ui/src/controlSurface.ts:200-208 | At every limit from 2 on, a word as long as the limit less one, a space and a letter: the cut leaves the space, which the next cleaning removes |
| SurfaceText.PrintLength | studio-ui/src/controlSurface.ts:454-459 | A number below a power of ten has at most that many digits |
| Surface.SanitizeControls | studio-ui/src/controlSurface.ts:414-424 | The loop with its set of ids and its early exit keeps exactly the first usable control of each id, up to 512 |
| Surface.Reconcile | studio-ui/src/controlSurface.ts:348-364 | Every control loses its unresolved mark exactly when no other unresolved control shares a key |
| Surface.ReconcileOnce | studio-ui/src/controlSurface.ts:348-364 | One pass reaches the fixpoint, on any list of controls |
| Surface.FindControl | studio-ui/src/controlSurface.ts:445-446 | The lookup finds a control of that id exactly when there is one |
| Surface.Sanitize | studio-ui/src/controlSurface.ts:409-488 | At most 512 controls, and a next number between 1 and the largest safe integer |
| SurfaceStored.FrameLaw | studio-ui/src/controlSurface.ts:315-335 | A stored frame is brought to a size within 36 and 280 and a position on the board for that size, each to the nearest thousandth |
| SurfaceStored.ChannelLaw | studio-ui/src/controlSurface.ts:253-311 | What each stored channel is kept as, field by field, and when it is dropped |
| SurfaceStored.ControlLaw | studio-ui/src/controlSurface.ts:313-338 | What each stored control is kept as at its position, field by field, and when it is dropped |
| SurfaceStored.StoredLaw | studio-ui/src/controlSurface.ts:348-424 | The sanitized controls are the surviving ones, cleaned; only a mark changes, and an open question stays open exactly when another surviving one shares a key |
| SurfaceStored.NextLaw | studio-ui/src/controlSurface.ts:454-486 | The next number is safe, at least the stored one and beyond every generated one as far as safe integers go, and no more than that takes |
| SurfaceStored.GeneratedIff | studio-ui/src/controlSurface.ts:454-459 | Exactly the identities c1, c2, ... are generated |
| SurfaceStored.PrintParse | studio-ui/src/controlSurface.ts:454-459 | Printing a parsed number without a leading zero gives its digits back |
| SurfaceStored.SelectionLaw | studio-ui/src/controlSurface.ts:442-453 | The stored selection is kept as far as its control and channel still exist, or else falls to the first channel or to none |
| SurfaceStable.NamedChannelsAreCleaned | studio-ui/src/controlSurface.ts:283-311 | Channels with usable distinct ids are all kept, each cleaned on its own |
| SurfaceStable.KeptIsCleaned | studio-ui/src/controlSurface.ts:313-338 | A control whose parts are settled is left alone |
| SurfaceStable.NamedAreCleaned | studio-ui/src/controlSurface.ts:414-424 | Controls with usable distinct ids, up to 512, are all kept in order, each cleaned on its own |
| SurfaceStable.StableIsCleaned | studio-ui/src/controlSurface.ts:409-424 | A settled list of controls is left alone |
| SurfaceInvariant.SanitizeBody | studio-ui/src/controlSurface.ts:409-488 | Sanitizing controls that clean to a sound body gives a document with the invariant, its controls reconciled |
| SurfaceInvariant.SanitizeKeeps | studio-ui/src/controlSurface.ts:409-488 | Saving and loading a document with the invariant gives it back unchanged |
| SurfaceInvariant.NextIsFresh | studio-ui/src/controlSurface.ts:454-486 | The next number names no control and no switch of the document |
| SurfaceInvariant.ReconcileAppend | studio-ui/src/controlSurface.ts:348-364 | A confirmed control at the end changes no other control's mark |
| SurfaceFrames.FrameKeptIff | studio-ui/src/controlSurface.ts:315-335 | A frame is left alone exactly when it is whole thousandths inside the bounds |
| SurfaceFrames.FrameSettlesInTwo | studio-ui/src/controlSurface.ts:315-335 | Cleaning a frame twice settles it |
| SurfaceFrames.FrameSettlesInOneIff | studio-ui/src/controlSurface.ts:315-335 | Cleaning a frame once settles it exactly when on neither axis the size is an exact half while the position reaches its bound |
| SurfaceFrames.FrameNeedsTwo | studio-ui/src/controlSurface.ts:315-335 | A frame that one cleaning does not settle: rounding the size pushes the position out of bounds |
| SurfaceKeys.NormalOfPrefixed | studio-ui/src/controlSurface.ts:200-208 | Cleaning text behind a prefix keeps the prefix, cleans the text, and shrinks white space between them to one space |
| SurfaceKeys.SwitchTellsKey | studio-ui/src/controlSurface.ts:1297 | A switch named after a migrated key, stored and cleaned, still tells the cleaned key |
| SurfaceSettling.SeenChannelsAreKept | studio-ui/src/controlSurface.ts:283-311 | Channels the sanitizer has seen once are kept as they are from the second cleaning on |
| SurfaceSettling.StableIsFixed | studio-ui/src/controlSurface.ts:409-488 | A document whose controls have settled is given back whole: controls, selection and next number |
| SurfaceSettling.SanitizeSettlesInThree | studio-ui/src/controlSurface.ts:409-488 | Whatever was stored, three passes reach a document that every further pass gives back |
| SurfaceSurvivors.KeptAreSurvivors | studio-ui/src/controlSurface.ts:283-311 | The sanitizer keeps the usable channels of new ids up to the cap, each cleaned, and the standard ones when none is left |
| SurfaceSurvivors.SurvivorsAreKept | studio-ui/src/controlSurface.ts:414-424 | The sanitizer keeps the usable controls of new ids up to the cap, each cleaned under its position |
| SurfaceOnePass.ChannelSettlesIff | studio-ui/src/controlSurface.ts:283-311 | One cleaning settles a stored channel exactly when none of the texts it keeps is cut behind a space |
| SurfaceOnePass.ControlSettlesIff | studio-ui/src/controlSurface.ts:313-338 | One cleaning settles a stored control exactly when none of its texts is cut behind a space, a switch named after it fits, rounding keeps its frame on the board, and its surviving channels settle |
| SurfaceOnePass.SanitizeAgainIff | studio-ui/src/controlSurface.ts:409-488 | For any stored document, a second sanitizing changes nothing exactly when each stored control that survives settles in one cleaning |
| SurfaceOnePass.TwoPassesSufficeIff | studio-ui/src/controlSurface.ts:409-488 | For any stored document, a third sanitizing changes nothing exactly when every switch the surviving controls get by name is not cut behind a space, repeated ids aside |
| SurfaceOnePass.TwoPassesAreTooFew | studio-ui/src/controlSurface.ts:319 | A button with an id of two words and no switch, which two passes do not settle |
| SurfaceBuilt.BuiltIsMember | studio-ui/src/controlSurface.ts:738-789 | A built control, once sanitized, is settled and carries the next number, its own or the requested switch, and the requested key |
| SurfaceStarts.TemplateStarts | studio-ui/src/controlSurface.ts:949-990 | Whatever the document before, a template that is not refused gives a document with the invariant and one control for each specification |
| SurfaceStarts.MigrationStarts | studio-ui/src/controlSurface.ts:1275-1325 | Migrating any keys into an unstarted document gives one with the invariant; each control is on its key's switch, and controls share a switch only when their keys clean alike |
| SurfaceMapping.DrawnOnce | studio-ui/src/controlSurface.ts:894-914 | Every eligible (player, key) is drawn exactly once and no other is drawn |
| SurfaceMapping.DrawnInOrder | studio-ui/src/controlSurface.ts:904-914 | The generated controls come by player, and by key for one player |
| SurfaceMapping.AppearancesAsDrawn | studio-ui/src/controlSurface.ts:907-911 | Counting appearances over the sorted groups is counting them over the drawn controls |
| SurfaceMapping.FlagsSurvive | studio-ui/src/controlSurface.ts:348-364 | Reconciling keeps a generated flag exactly when cleaning leaves something of the key |
| SurfaceMapping.MappingTemplateIsExact | studio-ui/src/controlSurface.ts:887-965 | For all records: one control for each distinct (player, key), as many as the guard counts; unresolved exactly when another one has the same key as written, and cleaning leaves something of it |
| SurfaceMapping.FlagsMeanSharingIff | studio-ui/src/controlSurface.ts:887-965 | A flagged control shares its key with another; the flag tells exactly whether one does unless a key that only cleans alike is drawn |
| SurfaceMapping.CleanedKeysCanMerge | studio-ui/src/controlSurface.ts:894-914 | The keys "A" and "A " of one player are drawn as two controls of one key, neither flagged |
| SurfaceLayouts.TemplateFrames | studio-ui/src/controlSurface.ts:949-990 | Controls of every template stand where their specifications say, on the board |
| SurfaceLayouts.FixedTemplatesAreLaidOut | studio-ui/src/controlSurface.ts:791-841 | No two controls of an arcade-stick, leverless or four-player panel overlap |
| SurfaceLayouts.SelectedIsSeparateIff | studio-ui/src/controlSurface.ts:913-930 | One player's generated controls are overlap-free exactly when there are at most 40 |
| SurfaceLayouts.FourIsSeparateIff | studio-ui/src/controlSurface.ts:843-945 | Four players' generated controls are overlap-free exactly when no player has more than 25 distinct keys |
| SurfaceEdits.GroupsCount | studio-ui/src/controlSurface.ts:894-964 | The groups are as many as the guard counts |
| SurfaceEdits.GeneratedIdIsClean | studio-ui/src/controlSurface.ts:313-319 | Generated ids and switch ids are settled text and never forbidden names |
| SurfaceBuild.BuildContext.Append | studio-ui/src/controlSurface.ts:738-789 | One more control under the next number |
| SurfaceBuild.BuildContext.ArcadeStick | studio-ui/src/controlSurface.ts:791-801 | The loop builds the stick, eight buttons, Coin and Start at their places |
| SurfaceBuild.BuildContext.Leverless | studio-ui/src/controlSurface.ts:803-817 | The loops build four directions, eight buttons, Select and Start |
| SurfaceBuild.BuildContext.Player | studio-ui/src/controlSurface.ts:819-840 | One player's stick, six buttons, Start and Coin |
| SurfaceBuild.BuildContext.FourPlayers | studio-ui/src/controlSurface.ts:819-841 | Four players in order |
| SurfaceBuild.BuildContext.DrawSlot | studio-ui/src/controlSurface.ts:913-945 | The loop builds one control for each of a player's groups |
| SurfaceBuild.Grouping | studio-ui/src/controlSurface.ts:897-903 | The loop over records groups the eligible ones by (player, key), in order of first appearance |
| SurfaceBuild.CountAppearances | studio-ui/src/controlSurface.ts:907-911 | The table holds, for each key, how many groups carry it |
| SurfaceBuild.RunTemplate | studio-ui/src/controlSurface.ts:949-990 | The template as it runs gives the specified document, or only sanitizes when refused |
| SurfaceTables.ArcadeStickTable | studio-ui/src/controlSurface.ts:791-801 | Kind, caption and place of each of the eleven controls |
| SurfaceTables.LeverlessTable | studio-ui/src/controlSurface.ts:803-817 | Kind, caption and place of each of the fourteen controls |
| SurfaceTables.FourPlayerTable | studio-ui/src/controlSurface.ts:819-841 | The 36 controls are the four players' panels of nine, in order |
| SurfaceTables.PanelTable | studio-ui/src/controlSurface.ts:819-841 | Kind, caption, player and place of each of a player's nine controls, from that player's corner |
| SurfaceTables.MappedCaption | studio-ui/src/controlSurface.ts:917-919 | A generated caption joins the distinct names of its key's functions, or is the key |
| SurfaceTables.MappedSpec | studio-ui/src/controlSurface.ts:913-945 | What a generated control is built from, and where it stands in its grid |
| SurfaceTables.FinalLaw | studio-ui/src/controlSurface.ts:738-789 | A built control once stored: number, switch, cleaned caption, size and the claim on its first channel |
| SurfaceTables.TemplateLaw | studio-ui/src/controlSurface.ts:966-989 | What an accepted template makes of the document: layout, stage, controls, the first selected, and the next number |
| SurfaceTables.RefusedIff | studio-ui/src/controlSurface.ts:956-965 | A mapping is refused exactly when it names more than 512 distinct (player, key) pairs, and then the document is only sanitized |
| SurfaceTables.MigrateLaw | studio-ui/src/controlSurface.ts:1275-1325 | A migration of an unstarted document gives one confirmed control per placed key in order, and four panels exactly when the keys belong to more than one player |
| SurfaceTables.MigrationRefused | studio-ui/src/controlSurface.ts:1275-1290 | A started document, no key or too many: the document is only sanitized |
| SurfaceRuns.SelectKeeps | studio-ui/src/controlSurface.ts:1035-1045 | Selecting touches no control and keeps the invariant |
| SurfaceLaws.SelectLaw | studio-ui/src/controlSurface.ts:1035-1045 | Selecting a control selects the channel asked for, or else its first, and changes nothing else |
| SurfaceLaws.SelectUnknownLaw | studio-ui/src/controlSurface.ts:1035-1045 | Selecting an unknown control selects nothing and changes nothing else |
| SurfaceRuns.LooksKeep | studio-ui/src/controlSurface.ts:1084-1099 | Layout and stage edits touch no control |
| SurfaceLaws.LooksLaw | studio-ui/src/controlSurface.ts:1084-1099 | Setting the panel layout makes the document custom, setting the stage does not, and nothing else changes |
| SurfaceRuns.MoveKeeps | studio-ui/src/controlSurface.ts:1101-1121 | Moving changes only that control's position, which stays on the board without a final sanitizing |
| SurfaceLaws.MoveLaw | studio-ui/src/controlSurface.ts:1101-1121 | Moving puts the control on the whole thousandth nearest to the wish that keeps it on the board, and changes no other control |
| SurfaceRuns.SetSlotKeeps | studio-ui/src/controlSurface.ts:1064-1082 | Reassigning changes only that control's player |
| SurfaceLaws.SetSlotLaw | studio-ui/src/controlSurface.ts:1064-1082 | Reassigning writes the player of that control, none when the number is not 1 to 4, and changes no other control |
| SurfaceRuns.RenameKeeps | studio-ui/src/controlSurface.ts:1047-1062 | Renaming changes only that control's caption, to settled text |
| SurfaceLaws.RenameLaw | studio-ui/src/controlSurface.ts:1047-1062 | Renaming writes the caption of that control, cleaned; a blank caption changes nothing |
| SurfaceLaws.UnknownLaw | studio-ui/src/controlSurface.ts:1035-1183 | An edit of an unknown control changes no control |
| SurfaceRuns.RemoveKeeps | studio-ui/src/controlSurface.ts:1123-1137 | Removing keeps every other control; only answered questions change |
| SurfaceLaws.RemoveLaw | studio-ui/src/controlSurface.ts:1123-1137 | Removing takes exactly that control out, selects the first one left, and closes the questions it answers |
| SurfaceLaws.RemoveUnknownLaw | studio-ui/src/controlSurface.ts:1123-1137 | Removing an unknown control takes nothing out |
| SurfaceRuns.AddKeeps | studio-ui/src/controlSurface.ts:992-1033 | Below the cap adding appends exactly one control with a fresh id and switch, drops none and selects it; at the cap nothing changes |
| SurfaceLaws.AddLaw | studio-ui/src/controlSurface.ts:992-1033 | Below the cap one unassigned control of its kind, on a switch of its own, is appended under the next number and selected |
| SurfaceLaws.AddedCell | studio-ui/src/controlSurface.ts:1002-1020 | A new control is centred in the next cell of the board's 8 by 3, or of the player's 5 by 3 |
| SurfaceLaws.KindTable | studio-ui/src/controlSurface.ts:712-736 | Caption, size and channels of a new control of each kind |
| SurfaceRuns.CopyKeeps | studio-ui/src/controlSurface.ts:1139-1183 | Copying a resolved control appends exactly that copy, changes no other control and selects it; otherwise nothing changes |
| SurfaceLaws.CopyLaw | studio-ui/src/controlSurface.ts:1139-1183 | A copy repeats its source under a new number, moved by 28 on each axis as far as the board allows: a duplicate on a switch of its own, a mirror on the same |
| SurfaceStored.CopyAnswers | studio-ui/src/controlSurface.ts:1139-1183 | In any document, what stays open after mirroring a resolved control was an open question about another switch, and duplicating answers nothing |
| SurfaceLaws.CopyOpenLaw | studio-ui/src/controlSurface.ts:1139-1150 | An open question is not copied |
| SurfaceLaws.FullLaw | studio-ui/src/controlSurface.ts:992-1150 | At 512 controls nothing is added or copied |
| SurfaceRuns.TeachKeeps | studio-ui/src/controlSurface.ts:1233-1273 | Teaching writes the key to that channel of every view of the switch and keeps the views in agreement |
| SurfaceRuns.TeachWrites | studio-ui/src/controlSurface.ts:1233-1273 | On every view of the selected switch the channel with the taught identity carries exactly the twice cleaned key and device, unmarked; every other channel of every control is unchanged |
| SurfaceRuns.TeachRefuses | studio-ui/src/controlSurface.ts:1233-1245 | A blank key, an unknown control or an unknown channel teaches nothing |
| SurfaceLaws.TeachSelects | studio-ui/src/controlSurface.ts:1233-1273 | Teaching selects what was taught and changes nothing but the controls and the selection |
| SurfaceRuns.TeachTouchesOneSwitchIff | studio-ui/src/controlSurface.ts:1246-1267 | Teaching changes a control of another switch exactly when both are open questions, the taught one is its last peer, and the new key is none of its own; then it is confirmed and nothing else |
| SurfaceTeach.TeachingConfirmsAnother | studio-ui/src/controlSurface.ts:1246-1267 | A document with the invariant on which teaching one button confirms the button of another switch |
| SurfaceRuns.ResolveKeeps | studio-ui/src/controlSurface.ts:1185-1231 | Resolving keeps the invariant, for a mirror when no view of the selected switch contradicts it |
| SurfaceLaws.ResolveLaw | studio-ui/src/controlSurface.ts:1185-1231 | Resolving answers each open question about the chosen key, by a switch of its own or as a mirror by the chosen switch and claim, and changes nothing else but questions that settles |
| SurfaceLaws.NothingToResolveLaw | studio-ui/src/controlSurface.ts:1185-1204 | Nothing is resolved unless the chosen channel has a key and two open questions are about it |
| SurfaceRuns.OpenMirrorIsAllowed | studio-ui/src/controlSurface.ts:1193-1230 | A mirror declared on an open question is never contradicted |
| SurfaceRuns.MirrorKeepsSwitchesIff | studio-ui/src/controlSurface.ts:1193-1230 | In the document a mirror resolution returns, views of one switch agree exactly when no view of the selected switch contradicted the chosen channel |
| SurfaceMirror.MirrorOnStickCanDisagree | studio-ui/src/controlSurface.ts:1193-1230 | A document with the invariant on which a mirror declared on a settled joystick returns a document with two views of one switch in disagreement |
| SurfaceSweep.SweptChannel | studio-ui/src/controlSurface.ts:540-577 | The rule for one channel: what it keeps, when it drops the claim, and that it is done exactly when the channel is honest |
| SurfaceSweep.SweptAndCleanedIff | studio-ui/src/controlSurface.ts:523-580 | A channel the sanitizer has seen, swept and cleaned once more, is honest exactly when the roster reads its cleaned device name alike, or the rule it got fits the other kind too |
| SurfaceSweep.SweepIsHonestIff | studio-ui/src/controlSurface.ts:523-580 | For any document, the sweep leaves every channel honest about its device exactly when every channel that survives its last cleaning stays honest |
| SurfaceSweep.TwoSweepsAreHonest | studio-ui/src/controlSurface.ts:523-580 | For any document and roster, two sweeps leave every channel honest |
| SurfaceClaims.SweepCanLeaveDishonest | studio-ui/src/controlSurface.ts:523-580 | A button whose device name is cut behind a space, which one sweep leaves dishonest and a second sweep changes |
| SurfaceSweep.SweepTouchesClaims | studio-ui/src/controlSurface.ts:523-580 | For any document, the sweep returns what sanitizing twice returns, but for claims, marks, verifications and answered questions |
| SurfaceSweep.SweepTwiceIff | studio-ui/src/controlSurface.ts:523-580 | For any document, a second sweep changes no control exactly when of each control that survives, the switch is not cut behind a space and the channels stay honest |
| SurfaceSweep.SweepSettles | studio-ui/src/controlSurface.ts:523-580 | For any document, a third sweep changes no control |
| SurfaceSweep.StoreIsHonest | studio-ui/src/controlSurface.ts:591-660 | Whatever was stored and whatever the roster, the store's sweep leaves every channel of every device honest |
| SurfaceSweep.StoreKeepsDevices | studio-ui/src/controlSurface.ts:591-660 | The store's sweep keeps the first entry of every device in order of appearance, the first 64 of them, each swept under its kept identity, and the identities are distinct |
| SurfaceSweep.StoreLosesNoDevice | studio-ui/src/controlSurface.ts:591-660 | A store of at most 64 devices keeps them all, and a larger one keeps 64 |
| SurfaceSweep.CanonicalIs | studio-ui/src/controlSurface.ts:222-225 | A cleaned identity is kept, and a blank or reserved one becomes the default keyboard's |
| SurfaceSweep.Kinds.KindFor | studio-ui/src/controlSurface.ts:528-535 | The memo table always agrees with the roster |
| SurfaceSweep.SweepDocument | studio-ui/src/controlSurface.ts:523-580 | The sweep with one memo table for the document gives the specified document |
| SurfaceSweep.RetireKeeps | studio-ui/src/controlSurface.ts:523-580 | The sweep keeps the invariant of a document without encoder links |
| SurfaceSweep.SweepKeepsSwitchesIff | studio-ui/src/controlSurface.ts:523-580 | For any document, linked or not, whose views agree once it is sanitized twice: they agree after the sweep exactly when channels of one identity on one switch share the fate the rule gives them |
| SurfaceClaims.SweepCanSplitSwitch | studio-ui/src/controlSurface.ts:540-577 | Two agreeing views of one switch, one linked to a terminal, which the sweep leaves in disagreement |
| SurfaceHistory.EditKeeps | studio-ui/src/controlSurface.ts:949-1325 | Every edit but a contradicted mirror keeps the invariant, and the next number grows by one at most |
| SurfaceHistory.RunsAreSafe | studio-ui/src/controlSurface.ts:949-1325 | A template or migration followed by any run of edits without a contradicted mirror: views of one switch agree, unresolved controls are alone, the selection exists, the next number is unused, and saving and loading changes nothing |
| SurfaceHistory.RunsAreSafeIff | studio-ui/src/controlSurface.ts:949-1325 | All documents of a run are so exactly when no mirror of the run is contradicted |
| SurfaceHistory.NextIsUnusedIff | studio-ui/src/controlSurface.ts:454-486 | After an addition the next number is unused exactly when the safe integers have not run out |
| SurfaceHistory.NextIsUnusedAfterCopyIff | studio-ui/src/controlSurface.ts:454-486 | After a copy of a resolved control too the next number is unused exactly when the safe integers have not run out |
| SurfaceHistory.NumbersCanRunOut | studio-ui/src/controlSurface.ts:454-486 | An empty document at the largest safe integer, on which an addition uses the number it hands out next |
| SurfaceHistory.EditsDropNothing | studio-ui/src/controlSurface.ts:992-1273 | Only templates, migrations and removals drop controls |
| Lease.StepKeeps | tools/hidmaestro-driver-installer/Program.cs:60-180 | Every step of every process, crashes included, keeps mutual exclusion, lease times and age facts |
| Lease.StepIsSafe | tools/hidmaestro-driver-installer/Program.cs:436-471 | Within the bounds no step deletes from a directory whose worker holds the lease |
| Lease.LeaseIsSafeIff | tools/hidmaestro-driver-installer/Program.cs:60-180 | Over all runs with crashes: no deletion under a held lease exactly when handoff delay plus probe-to-test delay stays below two minutes |
| Lease.MutexesExclude | tools/hidmaestro-driver-installer/Program.cs:60-180 | In every run at most one coordinator is at work and at most one process under the worker lease, and each mutex is free exactly when nobody is at work under it |
| Lease.FolderFate | tools/hidmaestro-driver-installer/Program.cs:60-180 | In one step only creation makes a directory, only a deletion that succeeds removes one, and only creation, writing and failed deletion date one |
| Lease.TestedIs | tools/hidmaestro-driver-installer/Program.cs:436-471 | A candidate passes when it is there, verified and was last written two minutes ago or more, and any other ends the sweep before a deletion |
| Lease.DeletedIs | tools/hidmaestro-driver-installer/Program.cs:436-464 | A deletion that succeeds takes its candidate alone off the list, one that fails leaves the list, and no other process is touched |
| Lease.ListedIs | tools/hidmaestro-driver-installer/Program.cs:436-445 | The sweep lists every directory, and refuses more than 32 |
| Installer.DeletionSucceedsIff | tools/hidmaestro-driver-installer/Program.cs:601-630 | A directory is gone exactly when it holds nothing but acceptable files and an attempt goes through before one is refused; a refusal up front changes nothing |
| Installer.DeletionOnlyDeletes | tools/hidmaestro-driver-installer/Program.cs:601-630 | Whatever the faults, what is left is part of what was there |
| Installer.AttemptIs | tools/hidmaestro-driver-installer/Program.cs:601-630 | What one attempt leaves of an acceptable directory under each fault |
| Installer.Disk.DeleteWorkingDirectory | tools/hidmaestro-driver-installer/Program.cs:601-630 | The loop of 40 attempts does exactly that and touches no other directory |
| Installer.Disk.RemovePriorWorkingDirectories | tools/hidmaestro-driver-installer/Program.cs:436-464 | Every candidate is checked before any is deleted; the first that does not go ends the sweep with what its attempts leave, and the later ones are untouched |
| Installer.Mutex.TryAcquire | tools/hidmaestro-driver-installer/Program.cs:159-171 | A free or abandoned mutex is acquired by the caller, a held one stays with its owner |
| Installer.IsWorkerActive | tools/hidmaestro-driver-installer/Program.cs:173-180 | It reports exactly whether a worker holds the lease, and leaves it with that worker or free |
| Installer.RunWorker | tools/hidmaestro-driver-installer/Program.cs:126-157 | Exit 0 exactly when the lease was held on a complete verified directory and the driver installed; the lease is released |
| Installer.RunCoordinatorLocked | tools/hidmaestro-driver-installer/Program.cs:76-124 | Exit code 0 means the worker returned 0 and no staging directory, old or new, is left; for every exit code, what is left of the new one |
| Installer.ExitCodesMean | tools/hidmaestro-driver-installer/Program.cs:76-124 | Each exit code before cleaning is given exactly by its cause: download, bytes, pins, launch or the worker's own code |
| Installer.SweptIff | tools/hidmaestro-driver-installer/Program.cs:436-471 | The old directories go exactly when at most 32, each two minutes old with only pinned files of pinned bytes, and some attempt at each goes through |
| Installer.CleansIff | tools/hidmaestro-driver-installer/Program.cs:109-123 | A staging that succeeds fails to clean up exactly when no attempt at the deletion goes through |
| Poll.Poller.Begin | studio-ui/src/nocturne.ts:48-102 | Starting a poll: when it is skipped, and the request it issues otherwise |
| Poll.Poller.OnHeaders | studio-ui/src/nocturne.ts:107-111 | An answer's headers: ignored when superseded, 304 ends the request, an error fails it |
| Poll.Poller.OnBody | studio-ui/src/nocturne.ts:112-116 | A body: ignored when superseded or unchanged, applied otherwise |
| Poll.Poller.OnFailure | studio-ui/src/nocturne.ts:117-126 | A failure clears both caches only for the newest request |
| Poll.MutationIssues | studio-ui/src/nocturne.ts:67-88 | A mutation always issues a new request |
| Poll.OtherSelectionIssues | studio-ui/src/nocturne.ts:55-100 | With nothing to supersede or another selection a poll is issued at once, with the selection, priority, freshness and validator it asks for |
| Poll.SameSelectionIssuesIff | studio-ui/src/nocturne.ts:71-89 | Exactly when a poll for the same selection is declined, and the priority and freshness its replacement takes over otherwise |
| Poll.ReplacementKeepsPromise | studio-ui/src/nocturne.ts:71-89 | For an unchanged selection a replacement keeps priority and fresh promise, and what is declined is covered already |
| Poll.SelectionIsInjective | studio-ui/src/nocturne.ts:60-65 | Selections are told apart when slots hold no NUL |
| Poll.RunsAreSafe | studio-ui/src/nocturne.ts:48-127 | In every interleaving paints carry strictly increasing generations, the active poll is the newest and in flight, and the page shows lastBody |
| Poll.OlderChangesNothing | studio-ui/src/nocturne.ts:107-126 | An event of an older request changes nothing but that request |
| Poll.SkipIsSound | studio-ui/src/nocturne.ts:114 | Skipping an unchanged body never leaves an older paint |
| Poll.CoherenceBreaksIff | studio-ui/src/nocturne.ts:99-115 | The validator comes to name a body the page does not show exactly when a poll passes the skip rules between headers and body of the newest request |
| Poll.CoherentRunIff | studio-ui/src/nocturne.ts:99-115 | In every run the validator keeps to the page all along exactly when no poll is issued at such a moment |
| Poll.ValidatorCanOutrunPage | studio-ui/src/nocturne.ts:106-115 | A run after which an unmodified answer leaves the older body on show |
| FeedbackQueue.KeptMembers | tools/hidmaestro-fake-host/FakeFeedbackQueue.cs:53-68 | Purging drops the controller's frames and no others |
| FeedbackQueue.KeptOrder | tools/hidmaestro-fake-host/FakeFeedbackQueue.cs:53-68 | Purging keeps the order of the rest |
| FeedbackQueue.RunsAreFair | tools/hidmaestro-fake-host/FakeFeedbackQueue.cs:25-77 | In every run: count within capacity, first in first out, every frame accounted for, the drop counter exact until it saturates |
| FeedbackQueue.DropsOldest | tools/hidmaestro-fake-host/FakeFeedbackQueue.cs:33-39 | A full queue drops its oldest frame and nothing newer |
| FeedbackQueue.NewQueue | tools/hidmaestro-fake-host/FakeFeedbackQueue.cs:15-20 | A capacity outside 1 to 64 is refused, any other gives an empty queue of that capacity |
| FeedbackQueue.FakeFeedbackQueue.Enqueue | tools/hidmaestro-fake-host/FakeFeedbackQueue.cs:25-40 | Refusals change nothing; a full queue zeroes and drops its oldest frame; the new frame is last |
| FeedbackQueue.FakeFeedbackQueue.TryDequeue | tools/hidmaestro-fake-host/FakeFeedbackQueue.cs:42-51 | The oldest frame leaves with its buffer untouched |
| FeedbackQueue.FakeFeedbackQueue.Rotate | tools/hidmaestro-fake-host/FakeFeedbackQueue.cs:53-68 | One rotation in place equals the filter; discarded buffers are zeroed, kept ones unchanged |
| FeedbackQueue.FakeFeedbackQueue.Purge | tools/hidmaestro-fake-host/FakeFeedbackQueue.cs:53-68 | Purging keeps exactly the entries of other controllers, in order, and is told by the history |
| FeedbackQueue.FakeFeedbackQueue.Close | tools/hidmaestro-fake-host/FakeFeedbackQueue.cs:70-77 | Closing zeroes every buffer and empties the queue; closing again does nothing |

## Left out

- SurfaceHistory.RunsAreSafe: the run is shorter than the safe integers last (`NumbersCanRunOut`), and saved documents with encoder links are covered by the settling and sweep lemmas only.
- SurfaceSweep.RetireKeeps: the invariant of edited documents has no terminal links; for linked ones `SurfaceSweep.SweepKeepsSwitchesIff` says what the sweep keeps.
- Surface.Sanitize: the version-one shape (a generated control without a stored resolution) and the panel layout inferred for it are not modelled; every control comes with a resolution and every document with a layout.
- SurfaceText.SettledMeans: for text whose compatibility normalization is itself, as for all cleaning lemmas.
- SurfaceText.CleanIsIdempotentIff: likewise.
- SurfaceText.CleanTwiceSettles: for text whose compatibility normalization is itself, over Unicode scalar values; NFKC and lone surrogates are not modelled.
- PackingLayout.CompactBoard: cap widths are an input between 1 and 3.25 units; reading them from a class name (`keycapUnits`) is not modelled.
- Lattice.NearestClear: points are compared exactly, not by their two-decimal tokens.
- Lattice.Offer: likewise.
- Placement.LayoutProcessors: the wanted points (averages of endpoints and the fan of peers) are inputs, the overflow element is present, and positions are not rounded to two decimals.
- FlowGraph.DeriveDirectMappingFlow: lower casing covers the basic Latin letters, function labels are not modelled, and the legacy key list is split at the middle dot and trimmed, which is what its pattern does.
- FlowGraph.AddMacro: a macro's timeline, meta text, disabled flag, edit link and labels are not modelled.
- FlowGraph.DeriveMappingFlow: the reasons of unavailability and all display fields are not modelled.
- Lease.LeaseIsSafeIff: a worker started by hand, outside a coordinator, is not part of the model.
- Packing.CompactLayout: scales are exact twentieths; the drift of repeated subtraction of 0.05 in floating point is not modelled.
- Floating point everywhere else: coordinates are reals or integer thousandths, rounded half up.
- The players and free layout modes, stored workbench state, player bindings and mirrors of keys.
- Drawing, focus, dragging, hovering and announcement code of the mapping layer, its curves, and lookups of elements.
- Reading raw JSON: missing or mistyped fields, the version-one shape of generated documents, and the inferred panel layout.
- The document's name, theme and open flag, which no modelled rule reads.
- Store functions other than the sweep: lookup by device, eviction, migration markers and hardware epochs.
- Download, hashing, archive reading, path checks and assembly loading in the installer: "a file matches its pin" is an input bit, and installing the driver one step.
- The coordinator's outer mutex appears in `Lease` only; `Installer` starts under it.
- Timeouts and aborts of a poll appear as failures that can arrive at any time; form handling, flash messages and live updates are not modelled.
- The host session around the feedback queue, and the encoding of frames.
