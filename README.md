# Force-directed multi-link view: layout parameters, glyphs and provenance updates

This project models the core of the MultiLink network view of multidynamic
in Dafny and proves properties of the model:

- **Collision radius** (`getForceRadius`): the radius the collision force gives a
  node marker, in nested mode or plain mode.
- **Simulation handle** (`makeSimulation`, `startSimulation`, `stopSimulation`,
  `releaseNodes`): a `Simulation` class records the parameters the code sets on
  the d3 simulation (link distance, charge, centre, collision radius, strength and
  iterations, `alpha`, `alphaMin`, `alphaTarget`, whether the timer runs). Building
  it fails with d3's "node not found" error when a link end names no node. Nodes
  are objects of class `Node`. Their `fx`, `fy`, `savedX` and `savedY` fields are
  written in place by loops over the network's nodes; `x` and `y` are only read.
- **Link muting** (`highlightLinks`): the `muted` class of every link, as a
  sequence of booleans.
- **Nested glyphs** (`drawNested`): each node's SVG group is a `NodeGroup` object
  whose children are rectangle records (kind, x, y, width, height, rx, ry, fill)
  or other elements. `DrawNested` removes the old bar and glyph rectangles of every
  group. It then appends a white track and a coloured foreground bar per bar
  variable, and a capsule glyph for each of glyph slots 0 and 1 that has a glyph
  variable. The arguments shared by all nodes (marker size, colour scale, bar and
  glyph variables, network) form one `Layout` value. `DrawNested` is proved to
  leave each group as `Redraw` of its old children. The counts, idempotence and
  geometry are proved about `Redraw`.
- **Provenance action** (`updateProvenanceState`): the action body, an `if` per
  event label, copies one field of the new state into the provenance state. It is
  proved equal to a table-driven specification (`FieldFor`, `CopyField`,
  `Updated`). The store applies it only when `provenance` is not null.

Modules: `Wrappers` (Option), `ForceRadius`, `Graph` (Node, Link, Network),
`Simulation`, `LinkHighlight`, `NestedGlyphs`, `ProvenanceUpdate`.

Dimensions and attribute values are `real`. No floating-point effects are modelled.
The d3 colour scale is a function parameter, from a node's glyph category (or
`None` when the node has none) to a colour string.

A reheat does not restart the timer. `startSimulation` sets `alpha` to 0.5, and
its call to `restart()` is commented out
(src/components/MultiLink/functionUpdateVis.ts:151-152). Setting alpha does not
restart a stopped d3 timer. So `Simulation.Start` and `ReleaseNodes` keep
`running` as it was.

Giving the links to the link force (line 46) looks up every link end among the
node ids, and d3 throws "node not found" for the first end that names no node.
`Simulation.MakeSimulation` models that error path; the constructor
`Simulation.Make` is the successful rest of `makeSimulation`.

`releaseNodes` calls `startSimulation` without the view as its receiver, so the
reheat throws. The model has both the call as written and the intended call
(see "## Findings").

## Model

| member | source | states |
|---|---|---|
| ForceRadius.Max | src/components/MultiLink/functionUpdateVis.ts:18 | d3's max of two values is at least each of them and equal to one of them |
| ForceRadius.GetForceRadius | src/components/MultiLink/functionUpdateVis.ts:16-23 | nested: the radius is 0.8 times the larger side (at least 0.8·L and 0.8·H, equal to one); plain: 1.5 times the larger half-side |
| ForceRadius.RadiusOfEmptyMarker | src/components/MultiLink/functionUpdateVis.ts:16-23 | a marker with both sides 0 has radius 0 in either mode |
| ForceRadius.PlainRadiusIsFifteenSixteenthsOfNested | src/components/MultiLink/functionUpdateVis.ts:16-23 | the plain-mode radius is exactly 15/16 of the nested-mode radius for the same marker |
| ForceRadius.RadiusMonotone | src/components/MultiLink/functionUpdateVis.ts:16-23 | enlarging a marker never shrinks its collision radius |
| ForceRadius.RadiusNonNegative | src/components/MultiLink/functionUpdateVis.ts:16-23 | a marker with a non-negative side has a non-negative radius |
| Simulation.FirstUnresolved | src/components/MultiLink/functionUpdateVis.ts:46 | the end d3's link force rejects: None exactly when every link end names a node; otherwise the source (or, if that resolves, the target) of the first link with an unresolved end |
| Simulation.MakeSimulation | src/components/MultiLink/functionUpdateVis.ts:26-66 | ends normally exactly when every link end names a node, with a fresh simulation in Make's initial state; otherwise fails with "node not found" for FirstUnresolved's id and returns no simulation |
| Simulation.DanglingLinkIsRejected | src/components/MultiLink/functionUpdateVis.ts:41-46 | nodes [A] with a link from A to Z: makeSimulation fails with "node not found" for Z |
| Simulation.Simulation.Make | src/components/MultiLink/functionUpdateVis.ts:26-66 | once the links resolve, the new simulation holds the network's nodes and links, link distance 60, charge -300, centre at half the view, collision radius from GetForceRadius with strength 0.7 and 10 iterations, alphaMin 0.025, alphaTarget 0.02, running; alphaTarget is below alphaMin |
| Simulation.Simulation.ConfigureCollision | src/components/MultiLink/functionUpdateVis.ts:145-149 | the collision force is replaced by one with radius GetForceRadius, strength 0.7 and 10 iterations; every other parameter is kept |
| Simulation.Simulation.Start | src/components/MultiLink/functionUpdateVis.ts:145-152 | alpha becomes 0.5 and the collision force is recomputed with strength 0.7 and 10 iterations; nodes, links, link distance, charge, centre, alphaTarget, alphaMin and the running flag are untouched, so the settling condition is kept |
| Simulation.StartSimulation | src/components/MultiLink/functionUpdateVis.ts:143-153 | with the view as receiver the call ends normally and reheats as Start does; without a receiver, reading the marker size from `this` throws a TypeError before the simulation is touched, so nothing changes |
| Simulation.UnpinAll | src/components/MultiLink/functionUpdateVis.ts:165-168 | every node has fx and fy unset, with x, y, savedX and savedY unchanged |
| Simulation.ReleaseNodesAsWritten | src/components/MultiLink/functionUpdateVis.ts:163-170 | as written: the nodes are unpinned, then the call ends in a TypeError and the simulation is left exactly as it was (no reheat, old collision force) |
| Simulation.ReleaseAsWrittenSkipsReheat | src/components/MultiLink/functionUpdateVis.ts:163-170 | on a fresh one-node simulation the as-written call clears the pin, throws, and leaves alpha at its initial 1 instead of the 0.5 of a reheat |
| Simulation.Simulation.Stop | src/components/MultiLink/functionUpdateVis.ts:156 | the timer no longer runs |
| Simulation.StopSimulation | src/components/MultiLink/functionUpdateVis.ts:155-161 | the simulation is stopped and every node has savedX = x and savedY = y, with x, y, fx and fy unchanged |
| Simulation.ReleaseNodes | src/components/MultiLink/functionUpdateVis.ts:163-170 | as intended: every node has fx and fy unset, with x, y, savedX and savedY unchanged; then the simulation is reheated for the view's marker (alpha 0.5, collision radius, strength 0.7, 10 iterations) and every other parameter and the running flag are unchanged, so the settling condition is kept |
| Simulation.CoolsWithin | src/components/MultiLink/functionUpdateVis.ts:60-63 | under d3's cooling rule with alphaTarget below alphaMin, alpha falls below alphaMin within n ticks once n·decay·(alphaMin − alphaTarget) covers alpha − alphaTarget |
| Simulation.SimulationEnds | src/components/MultiLink/functionUpdateVis.ts:60-63 | with the settings makeSimulation chooses (alphaTarget 0.02 below alphaMin 0.025), the simulation stops after finitely many ticks from any alpha, including after a reheat to 0.5 |
| LinkHighlight.LinksToHighlight | src/components/MultiLink/functionUpdateVis.ts:69-74 | one entry per link: the link's id when an end is selected, "" otherwise; its non-empty entries are exactly the ids of the links that touch the selection |
| LinkHighlight.HighlightLinks | src/components/MultiLink/functionUpdateVis.ts:68-81 | one muted flag per link; with an empty selection no link is muted |
| LinkHighlight.MutedIff | src/components/MultiLink/functionUpdateVis.ts:68-81 | for links with non-empty distinct ids, a link is muted if and only if the selection is non-empty and neither its source nor its target is selected |
| LinkHighlight.ChainExample | src/components/MultiLink/functionUpdateVis.ts:68-81 | links A–B and B–C with A selected: A–B stays active and B–C is muted |
| LinkHighlight.PlaceholderIdIsNeverMuted | src/components/MultiLink/functionUpdateVis.ts:69-80 | a link whose id is "" is never muted while some other link does not touch the selection, because the placeholder "" is then among the ids to highlight |
| NestedGlyphs.BarWidth | src/components/MultiLink/functionUpdateVis.ts:98-100 | the bar slots tile the whole marker length when there are no glyph variables, and half of it otherwise |
| NestedGlyphs.NetworkMax | src/components/MultiLink/functionUpdateVis.ts:103 | the maximum of a variable over the nodes that have it: absent exactly when no node has it, otherwise taken by some node and at least every node's value |
| NestedGlyphs.MaxValue | src/components/MultiLink/functionUpdateVis.ts:103 | the bar domain maximum is never 0 and bounds every node's value; it is the network maximum when that is positive, or when values exist and none is 0, and otherwise it is the fallback 1 |
| NestedGlyphs.Track | src/components/MultiLink/functionUpdateVis.ts:105-111 | the white track of slot i is a bar rectangle from y = 21 down to H − 5, inside the slot [i·w, (i+1)·w] with a margin of 5 on each side |
| NestedGlyphs.Foreground | src/components/MultiLink/functionUpdateVis.ts:114-120 | the coloured bar's bottom is at H − 5, the bottom of the track; it shares the track's x and width; its height times the maximum is the track height times the value |
| NestedGlyphs.BarPair | src/components/MultiLink/functionUpdateVis.ts:102-121 | bar variable i draws two rectangles: the track of slot i, then a foreground bar whose height times the variable's maximum over the whole network is the track height times the node's value |
| NestedGlyphs.Bars | src/components/MultiLink/functionUpdateVis.ts:102-121 | the first n bar variables give 2n rectangles, all of class bar |
| NestedGlyphs.BarsAt | src/components/MultiLink/functionUpdateVis.ts:102-121 | bar variable k's track is rectangle 2k and its foreground is rectangle 2k+1 |
| NestedGlyphs.GlyphRect | src/components/MultiLink/functionUpdateVis.ts:130-138 | the glyph of slot i is a glyph rectangle filled with the given colour, at x = L/2 + 5, of size (L/2 − 15) × (H/2 − 15), slot i + 1 starting 5 below slot i, with corner radii half of the box it is cut from |
| NestedGlyphs.GlyphSlot | src/components/MultiLink/functionUpdateVis.ts:124-139 | a slot without a glyph variable draws nothing; otherwise one glyph rectangle filled with the colour of the node's category |
| NestedGlyphs.Glyphs | src/components/MultiLink/functionUpdateVis.ts:124-139 | every glyph slot drawn is a rectangle of class glyph |
| NestedGlyphs.GlyphsOfBothSlots | src/components/MultiLink/functionUpdateVis.ts:124 | the glyphs drawn are those of slot 0 followed by slot 1 |
| NestedGlyphs.Remove | src/components/MultiLink/functionUpdateVis.ts:94-95 | removing a class keeps exactly the children that are not rectangles of that class |
| NestedGlyphs.KeptIsOthers | src/components/MultiLink/functionUpdateVis.ts:94-95 | removing bars and then glyphs keeps exactly the other elements, in their order |
| NestedGlyphs.DrawnCounts | src/components/MultiLink/functionUpdateVis.ts:102-139 | a node gets two per bar variable bar rectangles, min(2, number of glyph variables) glyph rectangles and nothing else |
| NestedGlyphs.Redraw | src/components/MultiLink/functionUpdateVis.ts:93-139 | after a redraw a node has exactly two per bar variable bars and min(2, number of glyph variables) glyphs whatever it showed before, and its other elements are unchanged |
| NestedGlyphs.RedrawIdempotent | src/components/MultiLink/functionUpdateVis.ts:93-139 | redrawing twice with the same inputs gives the same children as redrawing once |
| NestedGlyphs.BarsOrderedAndDisjoint | src/components/MultiLink/functionUpdateVis.ts:98-119 | track and foreground of a slot share x and width, and for i < j slot i ends before slot j starts |
| NestedGlyphs.BarsLeftOfGlyphs | src/components/MultiLink/functionUpdateVis.ts:98-135 | when glyphs are drawn they sit at x = L/2 + 5 and every bar ends to their left |
| NestedGlyphs.GlyphsStacked | src/components/MultiLink/functionUpdateVis.ts:124-139 | min(2, number of glyph variables) glyphs, slot k at x = L/2 + 5 and y = 21 + k·(H/2 − 10), filled with the colour of its category; the second starts 5 below the first |
| NestedGlyphs.ForegroundWithinTrack | src/components/MultiLink/functionUpdateVis.ts:108-118 | for 0 ≤ v ≤ maxValue and H ≥ 26 the foreground height lies in [0, H − 26] and its top is not above the track top 21 |
| NestedGlyphs.MaximumFillsTrack | src/components/MultiLink/functionUpdateVis.ts:103-118 | the node holding the positive network maximum gets a foreground bar as high as the track |
| NestedGlyphs.AllZeroGivesEmptyBars | src/components/MultiLink/functionUpdateVis.ts:103-118 | when every node has 0 the maximum falls back to 1 and the bar has height 0 |
| NestedGlyphs.RemoveAll | src/components/MultiLink/functionUpdateVis.ts:94-95 | every group loses its rectangles of the given class and nothing else |
| NestedGlyphs.AppendBar | src/components/MultiLink/functionUpdateVis.ts:102-121 | every group gets the track and the foreground bar of bar variable i appended |
| NestedGlyphs.AppendGlyph | src/components/MultiLink/functionUpdateVis.ts:124-139 | every group gets the glyph of the slot appended, coloured by its own category |
| NestedGlyphs.DrawBars | src/components/MultiLink/functionUpdateVis.ts:102-121 | every group gets the rectangles of all bar variables appended, in order |
| NestedGlyphs.DrawGlyphs | src/components/MultiLink/functionUpdateVis.ts:124-139 | every group gets the glyphs of slots 0 and 1 appended, skipping slots without a glyph variable |
| NestedGlyphs.DrawNested | src/components/MultiLink/functionUpdateVis.ts:84-140 | every node group ends up as Redraw of its old children: kept elements, then bars, then glyphs |
| ProvenanceUpdate.FieldFor | src/lib/provenanceUtils.ts:7-41 | a label names field f exactly when it is one of f's labels in the action's ifs, and names a field exactly when it is one of the eight labels tested |
| ProvenanceUpdate.CopyField | src/lib/provenanceUtils.ts:7-41 | copying a field makes it agree with the new state and leaves every other field as it was |
| ProvenanceUpdate.Updated | src/lib/provenanceUtils.ts:7-41 | for a label in the table, its field takes the new state's value; every other field keeps its value |
| ProvenanceUpdate.AtMostOneFieldChanges | src/lib/provenanceUtils.ts:7-41 | for any label at most one field of the provenance state changes |
| ProvenanceUpdate.UnknownLabelChangesNothing | src/lib/provenanceUtils.ts:7-41 | a label outside the table leaves the provenance state unchanged |
| ProvenanceUpdate.UpdateIdempotent | src/lib/provenanceUtils.ts:6-42 | applying the action twice with the same new state gives the same state as applying it once |
| ProvenanceUpdate.StateObject.Act | src/lib/provenanceUtils.ts:6-42 | the chain of ifs on the label leaves the provenance state equal to the table-driven Updated of its old value |
| ProvenanceUpdate.Provenance.Apply | src/lib/provenanceUtils.ts:46 | the action runs on a copy of the current state, which then becomes the current state |
| ProvenanceUpdate.UpdateProvenanceState | src/lib/provenanceUtils.ts:45-47 | the store's own state is never written; when provenance exists its current state becomes Updated with the store's state as new state, and when it is null nothing changes |

## Findings

| source | as written | input that shows it | evidently intended | confidence | as-written member | corrected member |
|---|---|---|---|---|---|---|
| src/components/MultiLink/functionUpdateVis.ts:169 | `releaseNodes` calls `startSimulation(simulation)` with no receiver. In module code `this` is then undefined, so reading `this.nodeMarkerLength` (line 147) throws a TypeError after the nodes have been unpinned. The simulation gets neither alpha 0.5 nor a new collision force. | any call; one node pinned at (10, 20) on a fresh simulation ends unpinned, with a TypeError and alpha still 1 (`Simulation.ReleaseAsWrittenSkipsReheat`) | the reheat of `startSimulation` run on the same view: alpha 0.5 and a collision force sized for the current marker | high; not executed | Simulation.ReleaseNodesAsWritten | Simulation.ReleaseNodes |

## Left out

- The d3-force physics: link springs, many-body charge, centring, collision relaxation, the tick loop and `dragNode`. The handle records only the parameters the code sets.
- The tick callback wiring (`simulation.on('tick', …)`): the callback is `dragNode`, which is not part of this model.
- Simulation.MakeSimulation: a link whose ends resolve keeps its end ids; d3's replacement of the ends by node objects is not modelled. When the lookup fails, the d3 simulation created at line 27, whose timer is already running, is unreachable and not modelled.
- d3's cooling rule is library behaviour: the decay per tick is a parameter of `Simulation.Cool`. The initial alpha 1 is d3's default for a new simulation.
- The DOM mechanics of d3-selection: `append`, `attr` strings with a `px` suffix, `classed` and `style` become rectangle records and boolean flags.
- `parseFloat`, NaN and `max(...) || fallback` on non-numeric input: values are reals. A node without a bar variable is skipped when the maximum is taken, as d3's max skips undefined. Every drawn node must have a number for each bar variable (`HasBarValues`), since the source would draw NaN otherwise.
- The ordinal colour scale is an opaque function parameter.
- trrack's `createAction`, `setLabel` and the history graph: only the action body and the `provenance !== null` guard are modelled. `Provenance` keeps just its current state.
- State fields that the provenance action never writes are not represented in `ProvState`.
- src/lib/utils.ts is not part of this model. Its URL parsing and date formatting are browser and locale calls.
- LinkHighlight.MutedIff: requires non-empty, distinct link ids. With an empty id, the `''` placeholder in `linksToHighlight` can leave a link unmuted (see `PlaceholderIdIsNeverMuted`).
- NestedGlyphs.DrawNested: requires the node groups to be distinct objects, as the elements of a d3 selection are; each group's attributes are fixed while it is drawn.
- Simulation.ReleaseNodes: the corrected operation takes the view it runs on as a parameter (`View`). The code as written supplies no view, so which one the fix would pass is a choice of the model.
- LinkHighlight.LinksToHighlight and LinkHighlight.HighlightLinks: the selection `state.selected` is an object keyed by node id. `in` also finds inherited properties such as `toString`, while `Object.keys` counts own keys only. The selection is modelled as the set of its own keys, which assumes no node id is the name of an `Object.prototype` property.
- ProvenanceUpdate.StateObject.Act: the copy of `selectedNodes` spreads the new state's Set into an array (src/lib/provenanceUtils.ts:8-10). The model keeps selected nodes as a sequence on both sides and does not represent the change of container type.
