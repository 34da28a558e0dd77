/** The rivet tool operator: its validation chain, the per-edge count
    resolution over the selected edges, and the two methods that append one
    placement descriptor per rivet copy to the scene collection. Meshes are
    reduced to their edges' lengths and selection flags. */
module RivetTool {
  import opened RivetLayout

  datatype Option<T> = None | Some(value: T)

  /** A mesh edge as the operator sees it: its length and whether it is selected. */
  datatype Edge = Edge(length: real, selected: bool)

  /** Only "mesh or not" and "edit mode or not" are ever read. */
  datatype ObjectType = MeshType | OtherType
  datatype ObjectMode = EditMode | OtherMode

  /** The active object: its type, its interaction mode and its mesh's edges in mesh order. */
  datatype TargetObject = TargetObject(objectType: ObjectType, mode: ObjectMode, edges: seq<Edge>)

  /** The template that is copied; only its presence matters to the placement rule. */
  datatype RivetObject = RivetObject(name: string)

  datatype CancelReason = MissingObject | NotAMesh | NotInEditMode | NoSelectedEdges | ZeroTotalLength
  datatype Status = Finished | Cancelled(reason: CancelReason)

  /** What one run of the operator reports and appends to the collection. */
  datatype Outcome = Outcome(status: Status, placed: seq<Placement>)

  /** The scene collection the new rivet objects are linked into. */
  class Collection {
    var objects: seq<Placement>

    constructor ()
      ensures objects == []
    {
      objects := [];
    }

    method Link(p: Placement)
      modifies this
      ensures objects == old(objects) + [p]
    {
      objects := objects + [p];
    }
  }

  predicate InRange(sel: seq<nat>, edges: seq<Edge>) {
    forall k :: 0 <= k < |sel| ==> sel[k] < |edges|
  }

  predicate Increasing(sel: seq<nat>) {
    forall a, b :: 0 <= a < b < |sel| ==> sel[a] < sel[b]
  }

  predicate NonNegativeLengths(edges: seq<Edge>) {
    forall j :: 0 <= j < |edges| ==> 0.0 <= edges[j].length
  }

  /** `[e for e in bm.edges if e.select]`, as indices into the mesh's edges. */
  function SelectedIndices(edges: seq<Edge>): (sel: seq<nat>)
    ensures InRange(sel, edges)
  {
    if edges == [] then []
    else
      var last := |edges| - 1;
      SelectedIndices(edges[..last]) + (if edges[last].selected then [last] else [])
  }

  /** The selection holds exactly the selected edges, each once, in mesh order. */
  lemma {:induction false} SelectedIndicesExact(edges: seq<Edge>)
    ensures var sel := SelectedIndices(edges);
      && Increasing(sel)
      && (forall j :: 0 <= j < |edges| ==> (edges[j].selected <==> j in sel))
  {
    if edges != [] {
      var last := |edges| - 1;
      SelectedIndicesExact(edges[..last]);
      var prev := SelectedIndices(edges[..last]);
      assert forall j :: 0 <= j < last ==> edges[..last][j] == edges[j];
    }
  }

  /** `sum(edge.calc_length() for edge in selected_edges)`. */
  function TotalLength(edges: seq<Edge>, sel: seq<nat>): (total: real)
    requires InRange(sel, edges)
    ensures NonNegativeLengths(edges) ==> 0.0 <= total
  {
    if sel == [] then 0.0
    else TotalLength(edges, sel[..|sel| - 1]) + edges[sel[|sel| - 1]].length
  }

  /** The count resolved for each selected edge, in selection order: `rivetCount`
      each in fixed mode, each edge's share of it in auto mode, where
      `totalLength` is consulted. */
  function ResolveCounts(s: Settings, edges: seq<Edge>, sel: seq<nat>, totalLength: real): (counts: seq<int>)
    requires InRange(sel, edges)
    requires s.autoMode ==> totalLength != 0.0
    ensures |counts| == |sel|
  {
    if s.autoMode then ShareCounts(edges, sel, Density(s.rivetCount, totalLength))
    else seq(|sel|, k requires 0 <= k < |sel| => s.rivetCount)
  }

  /** Each selected edge's share at density `rivetsPerLength`. */
  function ShareCounts(edges: seq<Edge>, sel: seq<nat>, rivetsPerLength: real): (counts: seq<int>)
    requires InRange(sel, edges)
    ensures |counts| == |sel|
  {
    seq(|sel|, k requires 0 <= k < |sel| => ShareCount(edges[sel[k]].length, rivetsPerLength))
  }

  /** The rivets of the selected edges, edge after edge in selection order. */
  function Placements(spacing: real, edges: seq<Edge>, sel: seq<nat>, counts: seq<int>): seq<Placement>
    requires InRange(sel, edges) && |counts| == |sel|
  {
    if sel == [] then []
    else
      var k := |sel| - 1;
      Placements(spacing, edges, sel[..k], counts[..k])
        + EdgePlacements(sel[k], edges[sel[k]].length, counts[k], spacing)
  }

  /** In auto mode the resolved count of an edge is its share at the density of the whole selection. */
  lemma ResolvedAutoCount(s: Settings, edges: seq<Edge>, sel: seq<nat>, totalLength: real, k: nat)
    requires InRange(sel, edges) && s.autoMode && totalLength != 0.0 && k < |sel|
    ensures ResolveCounts(s, edges, sel, totalLength)[k] == ShareCount(edges[sel[k]].length, Density(s.rivetCount, totalLength))
  {
  }

  /** Taking one more selected edge appends exactly that edge's rivets. */
  lemma PlacementsExtend(spacing: real, edges: seq<Edge>, sel: seq<nat>, counts: seq<int>, k: nat)
    requires InRange(sel, edges) && |counts| == |sel| && k < |sel|
    ensures Placements(spacing, edges, sel[..k + 1], counts[..k + 1])
      == Placements(spacing, edges, sel[..k], counts[..k]) + EdgePlacements(sel[k], edges[sel[k]].length, counts[k], spacing)
  {
    assert sel[..k + 1][..k] == sel[..k];
    assert counts[..k + 1][..k] == counts[..k];
  }

  /** Taking every selected edge gives the whole selection's rivets. */
  lemma PlacementsWhole(spacing: real, edges: seq<Edge>, sel: seq<nat>, counts: seq<int>)
    requires InRange(sel, edges) && |counts| == |sel|
    ensures Placements(spacing, edges, sel[..|sel|], counts[..|sel|]) == Placements(spacing, edges, sel, counts)
  {
    assert sel[..|sel|] == sel;
    assert counts[..|sel|] == counts;
  }

  /** The number of rivets the counts produce once each is clamped to at least one. */
  function TotalRivets(counts: seq<int>): nat {
    if counts == [] then 0
    else TotalRivets(counts[..|counts| - 1]) + ClampCount(counts[|counts| - 1])
  }

  /** The number of placements that belong to edge `j`. */
  function CountAt(ps: seq<Placement>, j: nat): nat {
    if ps == [] then 0
    else CountAt(ps[..|ps| - 1], j) + (if ps[|ps| - 1].edgeIndex == j then 1 else 0)
  }

  /** The checks of `execute`, in order; the first that fails names the reason
      the operator cancels, and `None` means every check passed. */
  function Validate(s: Settings, target: Option<TargetObject>, rivet: Option<RivetObject>): Option<CancelReason>
  {
    if target.None? || rivet.None? then Some(MissingObject)
    else if target.value.objectType != MeshType then Some(NotAMesh)
    else if target.value.mode != EditMode then Some(NotInEditMode)
    else
      var sel := SelectedIndices(target.value.edges);
      if sel == [] then Some(NoSelectedEdges)
      else if s.autoMode && TotalLength(target.value.edges, sel) == 0.0 then Some(ZeroTotalLength)
      else None
  }

  /** What one run of `execute` reports and links: nothing when a check
      fails, otherwise the placements of every selected edge. */
  function Execution(s: Settings, target: Option<TargetObject>, rivet: Option<RivetObject>): Outcome
  {
    match Validate(s, target, rivet)
    case Some(reason) => Outcome(Cancelled(reason), [])
    case None =>
      var edges := target.value.edges;
      var sel := SelectedIndices(edges);
      Outcome(Finished, Placements(s.spacing, edges, sel, ResolveCounts(s, edges, sel, TotalLength(edges, sel))))
  }

  /** `place_rivets_along_edge`: clamps the count, derives the effective
      spacing and links one rivet per offset, first vertex first. */
  method PlaceRivetsAlongEdge(s: Settings, edgeIndex: nat, edge: Edge, rivetCount: int, collection: Collection)
    modifies collection
    ensures collection.objects
      == old(collection.objects) + EdgePlacements(edgeIndex, edge.length, rivetCount, s.spacing)
  {
    var edgeLength := edge.length;
    var count := if rivetCount < 1 then 1 else rivetCount;
    var actualSpacing := if count > 1 then edgeLength / (count - 1) as real else 0.0;
    actualSpacing := if actualSpacing < s.spacing then actualSpacing else s.spacing;
    ghost var planned := EdgePlacements(edgeIndex, edge.length, rivetCount, s.spacing);
    assert count == ClampCount(rivetCount) == |planned|;
    assert actualSpacing == EffectiveSpacing(s.spacing, edgeLength, count);
    for i := 0 to count
      invariant collection.objects == old(collection.objects) + planned[..i]
    {
      var offset := i as real * actualSpacing;
      assert planned[i] == Placement(edgeIndex, offset);
      collection.Link(Placement(edgeIndex, offset));
      assert planned[..i + 1] == planned[..i] + [planned[i]];
    }
    assert planned[..count] == planned;
  }

  /** `execute`: runs the checks in order, resolves each selected edge's count
      (fixed or proportional to its length) and places that edge's rivets. */
  method Execute(s: Settings, target: Option<TargetObject>, rivet: Option<RivetObject>, collection: Collection)
    returns (status: Status)
    modifies collection
    ensures status == Execution(s, target, rivet).status
    ensures collection.objects == old(collection.objects) + Execution(s, target, rivet).placed
  {
    if target.None? || rivet.None? {
      return Cancelled(MissingObject);
    }
    var targetObject := target.value;
    if targetObject.objectType != MeshType {
      return Cancelled(NotAMesh);
    }
    if targetObject.mode != EditMode {
      return Cancelled(NotInEditMode);
    }
    var edges := targetObject.edges;
    var selected := SelectedIndices(edges);
    if |selected| == 0 {
      return Cancelled(NoSelectedEdges);
    }
    if s.autoMode {
      var totalLength := TotalLength(edges, selected);
      if totalLength == 0.0 {
        return Cancelled(ZeroTotalLength);
      }
      PlaceProportionally(s, edges, selected, totalLength, collection);
    } else {
      PlaceFixedCount(s, edges, selected, collection);
    }
    return Finished;
  }

  /** Auto mode's loop: each selected edge, in order, gets its share of
      `rivetCount` at the density `rivetCount / totalLength`. */
  method PlaceProportionally(s: Settings, edges: seq<Edge>, selected: seq<nat>, totalLength: real, collection: Collection)
    requires InRange(selected, edges) && s.autoMode && totalLength != 0.0
    modifies collection
    ensures collection.objects == old(collection.objects)
      + Placements(s.spacing, edges, selected, ResolveCounts(s, edges, selected, totalLength))
  {
    ghost var counts := ResolveCounts(s, edges, selected, totalLength);
    var rivetsPerLength := Density(s.rivetCount, totalLength);
    for k := 0 to |selected|
      invariant collection.objects == old(collection.objects) + Placements(s.spacing, edges, selected[..k], counts[..k])
    {
      var edge := edges[selected[k]];
      var edgeRivetCount := ShareCount(edge.length, rivetsPerLength);
      ResolvedAutoCount(s, edges, selected, totalLength, k);
      PlaceRivetsAlongEdge(s, selected[k], edge, edgeRivetCount, collection);
      PlacementsExtend(s.spacing, edges, selected, counts, k);
    }
    PlacementsWhole(s.spacing, edges, selected, counts);
  }

  /** Fixed mode's loop: each selected edge, in order, gets `rivetCount` rivets. */
  method PlaceFixedCount(s: Settings, edges: seq<Edge>, selected: seq<nat>, collection: Collection)
    requires InRange(selected, edges) && !s.autoMode
    modifies collection
    ensures collection.objects == old(collection.objects)
      + Placements(s.spacing, edges, selected, ResolveCounts(s, edges, selected, TotalLength(edges, selected)))
  {
    ghost var counts := ResolveCounts(s, edges, selected, TotalLength(edges, selected));
    for k := 0 to |selected|
      invariant collection.objects == old(collection.objects) + Placements(s.spacing, edges, selected[..k], counts[..k])
    {
      PlaceRivetsAlongEdge(s, selected[k], edges[selected[k]], s.rivetCount, collection);
      PlacementsExtend(s.spacing, edges, selected, counts, k);
    }
    PlacementsWhole(s.spacing, edges, selected, counts);
  }
}
