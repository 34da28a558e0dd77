# Rivet tool placement rule

A Dafny model of the placement rule of the Blender add-on's `OBJECT_OT_rivet_tool`
operator (`Sticher.py`). When the operator runs, it does four things in order:

1. It checks its inputs. It cancels when the target or the rivet object is missing, when the target is not a mesh, when the target is not in edit mode, or when no edge is selected. In auto mode it also cancels when the selected edges have a total length of 0.
2. It resolves a rivet count for every selected edge, in mesh order. In fixed mode every edge gets `rivet_count`. In auto mode every edge gets `max(1, int(length * rivet_count / total_length))`.
3. For each edge it clamps the count to at least one and derives the effective spacing `min(spacing, length / (n - 1))`, or 0 when there is a single rivet.
4. It links rivet `i` at `i` times the effective spacing from the edge's first vertex.

The model has three modules:

- `RivetLayout` holds the per-edge rules as pure functions over exact reals: the clamp, Python's truncating `int()`, the auto-mode share, the effective spacing and the offsets of one edge. It also holds the operator's property bounds.
- `RivetTool` holds:
  - the objects the operator reads;
  - the validation chain (`Validate`) and the outcome of a whole run (`Execution`);
  - the scene collection, as a class `Collection` whose `objects` field grows with every `Link`;
  - the source's two loops, as methods: `Execute` with its helpers `PlaceProportionally` and `PlaceFixedCount`, and `PlaceRivetsAlongEdge`. Each method is proved to append exactly what `Execution` or `EdgePlacements` prescribes.
- `RivetToolProperties` proves what a run guarantees:
  - the cancel reasons and their order;
  - per-edge counts in both modes;
  - the number and the order of the links;
  - that every rivet lies on its edge;
  - how far auto mode's total can drift from the requested budget.

Facts about the code that the model makes explicit:

- **Layout.** Only the from-start layout exists. There is no layout centred on the midpoint, so three rivets on a unit edge with spacing 0.2 sit at 0, 0.2 and 0.4 (`ThreeRivetsOnUnitEdge`).
- **Offsets can coincide.** When the effective spacing is 0, every rivet of the edge lands on the first vertex. That happens with a user spacing of 0 or an edge of length 0 (`ZeroSpacingStacksOnFirstVertex`).
- **Auto mode's total.** The rounding does not keep the auto-mode total to the budget. It stays within one rivet per selected edge of it, and it can land above or below (`AutoModeDrift`, `AutoModeOvershoots`, `AutoModeUndershoots`).
- **Validation.** The checks run in a fixed order and each has its own reason. "Not a mesh" and "not in edit mode" are two separate reasons.
- **No per-edge skip.** No edge is ever skipped on its own once the checks pass.
- **Where settings come from.** The operator reads `spacing`, `rivet_count` and `auto_mode` from its own properties. Only `rivet_object` comes from the scene's `rivet_tool_settings`.
- **Side effects.** Rivets are linked into the collection one by one as they are placed.

## Model

| member | source | states |
|---|---|---|
| RivetLayout.ValidSettings | Sticher.py:18-31 | the operator's declared bounds: spacing in [0, 0.222], rivet count at least 1 |
| RivetLayout.ClampCount | Sticher.py:91 | `max(1, n)` is at least 1 and at least `n`, and is either 1 or `n` |
| RivetLayout.Truncate | Sticher.py:77 | `int(x)` truncates toward zero: for `x >= 0` it is the largest integer not above `x`, for `x < 0` the smallest not below it |
| RivetLayout.Min | Sticher.py:97 | `min(a, b)` is at most both arguments and equal to one of them |
| RivetLayout.EffectiveSpacing | Sticher.py:94-97 | the spacing used is never above the user's, is non-negative for non-negative inputs, is 0 for a single rivet, and for `n > 1` is the smaller of the user's spacing and `length / (n - 1)` |
| RivetLayout.SpacingWithinPropertyBounds | Sticher.py:18-24 | with settings inside their declared bounds the effective spacing lies in [0, spacing] and so within [0, 0.222] |
| RivetLayout.AutoCountBounds | Sticher.py:75-77 | an auto-mode count lies in [1, rivet_count] for every edge not longer than the total |
| RivetLayout.ShareCountNearShare | Sticher.py:77 | an edge's count is more than its exact share minus one, and exceeds the share only when the share is below one and the minimum of one applies |
| RivetLayout.OffsetWithinEdge | Sticher.py:114-116 | rivet `i < n`, placed `i` times a non-negative effective spacing `s` from the first vertex, lies in [0, length] whenever `s` is 0 for one rivet and at most `length / (n - 1)` otherwise |
| RivetLayout.EdgeLayout | Sticher.py:86-116 | an edge gets `max(1, rivet_count)` rivets, the first at offset 0, consecutive ones exactly one effective spacing apart, the spacing in [0, spacing], every rivet tagged with the edge and within [0, length] |
| RivetLayout.EdgeOffsetsOrdered | Sticher.py:114-116 | offsets along an edge never decrease, and strictly increase when the effective spacing is positive |
| RivetLayout.ZeroSpacingStacksOnFirstVertex | Sticher.py:94-116 | with an effective spacing of 0 all `max(1, rivet_count)` rivets sit at offset 0 |
| RivetLayout.FiveRivetsOnUnitEdge | Sticher.py:86-116 | five rivets, spacing 0.2, edge length 1: offsets 0, 0.2, 0.4, 0.6, 0.8 |
| RivetLayout.ThreeRivetsOnUnitEdge | Sticher.py:86-116 | three rivets, spacing 0.2, edge length 1: offsets 0, 0.2, 0.4 (from the start, not centred) |
| RivetTool.Collection.Link | Sticher.py:125 | linking appends exactly one object to the collection |
| RivetTool.SelectedIndices | Sticher.py:61 | the selected-edge list holds valid edge indices |
| RivetTool.SelectedIndicesExact | Sticher.py:61 | the selected-edge list is strictly increasing and holds edge `j` exactly when `j` is selected |
| RivetTool.TotalLength | Sticher.py:69 | the summed length of the selected edges is non-negative when every length is |
| RivetTool.ResolveCounts | Sticher.py:68-82 | there is one resolved count per selected edge |
| RivetTool.ShareCounts | Sticher.py:75-77 | there is one auto-mode share per selected edge |
| RivetTool.PlaceRivetsAlongEdge | Sticher.py:86-125 | the collection ends as before plus `max(1, rivet_count)` rivets of that edge at offsets `i * EffectiveSpacing`, in order |
| RivetTool.Execute | Sticher.py:39-84 | the status is the one the validation chain and the run prescribe, and the collection gains exactly the run's placements (none when cancelled) |
| RivetTool.PlaceProportionally | Sticher.py:74-78 | in auto mode the collection gains every selected edge's rivets at its proportional share, edge by edge |
| RivetTool.PlaceFixedCount | Sticher.py:80-82 | in fixed mode the collection gains `rivet_count` rivets per selected edge, edge by edge |
| RivetToolProperties.CountAtLastEdge | Sticher.py:76-82 | the last selected edge adds its clamped count to its own tally and nothing to any other edge's |
| RivetToolProperties.PlacementsOfUnselectedEdge | Sticher.py:61 | an edge outside the selection receives no rivets |
| RivetToolProperties.PlacementsOfSelectedEdge | Sticher.py:76-82 | each selected edge receives exactly `max(1, count)` rivets of its own resolved count |
| RivetToolProperties.PlacementsTotal | Sticher.py:76-82 | the number of linked rivets is the sum of the clamped per-edge counts |
| RivetToolProperties.PlacementsOnSelectedEdges | Sticher.py:76-82 | every linked rivet belongs to a selected edge |
| RivetToolProperties.PlacementsWithinEdges | Sticher.py:114-116 | every linked rivet lies between its edge's first vertex and the edge's length |
| RivetToolProperties.PlacementsSplit | Sticher.py:76-82 | the rivets of a selection are those of all but the last edge followed by the last edge's rivets |
| RivetToolProperties.PlacementsInOrder | Sticher.py:76-82 | rivets are linked edge by edge in selection order: edge indices never decrease along the collection |
| RivetToolProperties.TotalLengthZero | Sticher.py:69-70 | with non-negative lengths the total is 0 exactly when every selected edge has length 0 |
| RivetToolProperties.SelectedLengthAtMostTotal | Sticher.py:69 | no selected edge is longer than the total |
| RivetToolProperties.SelectionEmpty | Sticher.py:61-63 | the selection is empty exactly when no edge is selected |
| RivetToolProperties.SelectionAllZero | Sticher.py:69-70 | the selected length is 0 exactly when every selected edge has length 0 |
| RivetToolProperties.ValidateReasons | Sticher.py:47-72 | each cancel reason is chosen exactly when every earlier check passed and its own check fails |
| RivetToolProperties.CancelReasons | Sticher.py:47-84 | a run cancels with exactly the reason of the first failing check, finishes exactly when all pass, and links nothing when it cancels |
| RivetToolProperties.FixedModeCounts | Sticher.py:80-82 | in fixed mode a finished run gives each selected edge exactly `rivet_count` rivets and each other edge none |
| RivetToolProperties.AutoModeCounts | Sticher.py:68-78 | in auto mode a finished run gives each selected edge `max(1, int(length * rivet_count / total_length))` rivets, between 1 and `rivet_count`, and each other edge none |
| RivetToolProperties.ExecutionLayout | Sticher.py:76-125 | a finished run links the sum of the clamped counts, every rivet on a selected edge within its length, in selection order |
| RivetToolProperties.ExactShares | Sticher.py:77 | the exact shares `length * rivets_per_length` are non-negative for non-negative lengths and density |
| RivetToolProperties.ExactSharesOfTotal | Sticher.py:69-75 | the exact shares add up to the total length times the density |
| RivetToolProperties.SharesMakeBudget | Sticher.py:69-75 | at auto mode's density the exact shares add up to `rivet_count` |
| RivetToolProperties.RoundedNearSum | Sticher.py:77 | rounding non-negative shares that way keeps their sum within one per share, and strictly above the lower end for a non-empty selection |
| RivetToolProperties.AutoModeDrift | Sticher.py:74-78 | a finished auto-mode run over `k` selected edges links more than `rivet_count - k` and at most `rivet_count + k` rivets |
| RivetToolProperties.AutoModeOvershoots | Sticher.py:68-78 | lengths 1, 1, 98 with `rivet_count` 10 link 11 rivets |
| RivetToolProperties.AutoModeUndershoots | Sticher.py:68-78 | three edges of length 1 with `rivet_count` 10 link 9 rivets |
| RivetToolProperties.ThreeSelected | Sticher.py:61 | three selected edges give the selection `[0, 1, 2]` |

## Left out

- Floating point: lengths, spacings and offsets are exact reals. Rounding in `length / (n - 1)`, in `rivet_count / total_length` and in the offset products `i` times the effective spacing is not modelled. So `EdgeLayout`'s bound "no rivet past the second vertex" is exact here and may be off by one rounding step in the add-on. Rounding also changes counts: when an edge's exact share `length * rivet_count / total_length` is a whole number, the float product can land just below it and `int()` then gives one less. For example, auto mode with one selected edge of length 0.7 and `rivet_count` 3 gives 0.7 * (3 / 0.7) = 2.9999999999999996 in floats, so the add-on links 2 rivets where the model links 3. `DensityOverTotal` (`total * (rivet_count / total) == rivet_count`) likewise holds over exact reals only.
- AutoModeCounts: the per-edge count `max(1, int(length * rivet_count / total_length))` is stated over exact reals; in floats it can be one lower when the exact share is a whole number (the 0.7 / 3 input above).
- AutoModeDrift: the strict lower bound "more than `rivet_count - k`" holds over exact reals only; in floats the 0.7 / 3 input above links 2 = `rivet_count - k` rivets.
- The rotation frame (Sticher.py:100-108) is not modelled. That covers the edge direction, the face normal, the cross products and the `Matrix.Identity(3)` fallback for edges without faces. It is vector math in `mathutils`. A placement records only its edge and its scalar offset along the edge direction. The model assumes every selected edge borders a face: on an edge without faces the fallback hands a `Matrix` to `cross` (Sticher.py:105), which would stop the run after earlier edges' rivets were already linked, whereas the model places that edge's rivets and reports finished.
- World-space transforms and object duplication (Sticher.py:119-124) are not modelled: `rivet_object.copy()`, the location, the scale copy and `matrix_world`. Each link appends a descriptor `(edge index, offset)`.
- `bmesh.from_edit_mesh`, `e.select` and `calc_length()` (Sticher.py:60-61, 69, 88) are not modelled. Each mesh edge is a given `(length, selected)` record. Lengths are assumed non-negative where a property needs it.
- The texts passed to `self.report` are not modelled. A run yields only a status: finished, or cancelled with one of five reasons.
- Add-on registration, `bl_info`, the panel and the `RivetToolSettings` property group (Sticher.py:6-11, 128-190) are host UI and plugin plumbing. The property bounds the host enforces are stated by `ValidSettings`, and the lemmas that need them assume it.
- A layout centred on the midpoint does not exist in this file and is not modelled.
- `execute`'s two loops (Sticher.py:76-78 and 81-82) are written as the helper methods `PlaceProportionally` and `PlaceFixedCount`, which `Execute` calls. Behaviour is unchanged; the split only keeps each proof small.
