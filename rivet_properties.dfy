/** What one run of the rivet tool guarantees: when it cancels, how many
    rivets each edge receives in each mode, the order in which they are
    linked, where they sit on their edges, and how far auto mode's total can
    drift from the requested budget. */
module RivetToolProperties {
  import opened RivetLayout
  import opened RivetTool

  /** Counting the placements of edge `j` distributes over concatenation. */
  lemma {:induction false} CountAtAppend(a: seq<Placement>, b: seq<Placement>, j: nat)
    ensures CountAt(a + b, j) == CountAt(a, j) + CountAt(b, j)
  {
    if b == [] {
      assert a + b == a;
    } else {
      var n := |b| - 1;
      assert (a + b)[..|a + b| - 1] == a + b[..n];
      assert (a + b)[|a + b| - 1] == b[n];
      CountAtAppend(a, b[..n], j);
    }
  }

  /** A run of placements that all belong to edge `e` counts fully for `e` and not at all elsewhere. */
  lemma {:induction false} CountAtOneEdge(ps: seq<Placement>, e: nat, j: nat)
    requires forall i :: 0 <= i < |ps| ==> ps[i].edgeIndex == e
    ensures CountAt(ps, j) == if e == j then |ps| else 0
  {
    if ps != [] {
      CountAtOneEdge(ps[..|ps| - 1], e, j);
    }
  }

  /** The last selected edge adds its clamped count to its own tally and nothing to any other. */
  lemma CountAtLastEdge(spacing: real, edges: seq<Edge>, sel: seq<nat>, counts: seq<int>, j: nat)
    requires InRange(sel, edges) && |counts| == |sel| && sel != []
    ensures CountAt(Placements(spacing, edges, sel, counts), j)
      == CountAt(Placements(spacing, edges, sel[..|sel| - 1], counts[..|sel| - 1]), j)
         + (if sel[|sel| - 1] == j then ClampCount(counts[|sel| - 1]) else 0)
  {
    var n := |sel| - 1;
    var front := Placements(spacing, edges, sel[..n], counts[..n]);
    var last := EdgePlacements(sel[n], edges[sel[n]].length, counts[n], spacing);
    assert Placements(spacing, edges, sel, counts) == front + last;
    CountAtAppend(front, last, j);
    CountAtOneEdge(last, sel[n], j);
  }

  /** An edge outside the selection receives no rivets. */
  lemma {:induction false} PlacementsOfUnselectedEdge(spacing: real, edges: seq<Edge>, sel: seq<nat>, counts: seq<int>, j: nat)
    requires InRange(sel, edges) && |counts| == |sel| && j !in sel
    ensures CountAt(Placements(spacing, edges, sel, counts), j) == 0
  {
    if sel != [] {
      var n := |sel| - 1;
      assert j !in sel[..n];
      PlacementsOfUnselectedEdge(spacing, edges, sel[..n], counts[..n], j);
      CountAtLastEdge(spacing, edges, sel, counts, j);
    }
  }

  /** Over a selection without repeats, the `k`-th selected edge receives
      exactly the rivets of its own resolved count, clamped to at least one. */
  lemma {:induction false} PlacementsOfSelectedEdge(spacing: real, edges: seq<Edge>, sel: seq<nat>, counts: seq<int>, k: nat)
    requires InRange(sel, edges) && |counts| == |sel| && Increasing(sel) && k < |sel|
    ensures CountAt(Placements(spacing, edges, sel, counts), sel[k]) == ClampCount(counts[k])
  {
    var n := |sel| - 1;
    CountAtLastEdge(spacing, edges, sel, counts, sel[k]);
    if k < n {
      assert sel[k] < sel[n];
      assert sel[..n][k] == sel[k] && counts[..n][k] == counts[k];
      PlacementsOfSelectedEdge(spacing, edges, sel[..n], counts[..n], k);
    } else {
      assert sel[n] !in sel[..n] by {
        forall i | 0 <= i < n ensures sel[..n][i] != sel[n] {
          assert sel[i] < sel[n];
        }
      }
      PlacementsOfUnselectedEdge(spacing, edges, sel[..n], counts[..n], sel[n]);
    }
  }

  /** The rivets of a selection come to the sum of the clamped counts. */
  lemma {:induction false} PlacementsTotal(spacing: real, edges: seq<Edge>, sel: seq<nat>, counts: seq<int>)
    requires InRange(sel, edges) && |counts| == |sel|
    ensures |Placements(spacing, edges, sel, counts)| == TotalRivets(counts)
  {
    if sel != [] {
      var n := |sel| - 1;
      PlacementsTotal(spacing, edges, sel[..n], counts[..n]);
      assert counts[..n] == counts[..|counts| - 1];
    }
  }

  /** Every placement of a selection belongs to one of its edges. */
  lemma {:induction false} PlacementsOnSelectedEdges(spacing: real, edges: seq<Edge>, sel: seq<nat>, counts: seq<int>)
    requires InRange(sel, edges) && |counts| == |sel|
    ensures forall a :: 0 <= a < |Placements(spacing, edges, sel, counts)| ==> Placements(spacing, edges, sel, counts)[a].edgeIndex in sel
  {
    if sel != [] {
      var n := |sel| - 1;
      var init := sel[..n];
      PlacementsOnSelectedEdges(spacing, edges, init, counts[..n]);
      var front := Placements(spacing, edges, init, counts[..n]);
      var last := EdgePlacements(sel[n], edges[sel[n]].length, counts[n], spacing);
      var ps := front + last;
      assert Placements(spacing, edges, sel, counts) == ps;
      forall a | 0 <= a < |ps| ensures ps[a].edgeIndex in sel {
        if a < |front| {
          var k :| 0 <= k < n && init[k] == front[a].edgeIndex;
          assert sel[k] == ps[a].edgeIndex;
        } else {
          assert ps[a] == last[a - |front|];
          assert sel[n] == ps[a].edgeIndex;
        }
      }
    }
  }

  /** Every placement names an existing edge and lies between its first vertex and its length. */
  predicate WithinEdges(ps: seq<Placement>, edges: seq<Edge>) {
    forall a :: 0 <= a < |ps| ==> ps[a].edgeIndex < |edges| && 0.0 <= ps[a].offset <= edges[ps[a].edgeIndex].length
  }

  /** Placements are grouped by edge, edge indices never decreasing. */
  predicate InEdgeOrder(ps: seq<Placement>) {
    forall a, b :: 0 <= a < b < |ps| ==> ps[a].edgeIndex <= ps[b].edgeIndex
  }

  /** Every placement lies on its edge, between the first vertex and the edge's length. */
  lemma {:induction false} PlacementsWithinEdges(spacing: real, edges: seq<Edge>, sel: seq<nat>, counts: seq<int>)
    requires InRange(sel, edges) && |counts| == |sel|
    requires NonNegativeLengths(edges) && 0.0 <= spacing
    ensures WithinEdges(Placements(spacing, edges, sel, counts), edges)
  {
    if sel != [] {
      var n := |sel| - 1;
      PlacementsWithinEdges(spacing, edges, sel[..n], counts[..n]);
      var front := Placements(spacing, edges, sel[..n], counts[..n]);
      var last := EdgePlacements(sel[n], edges[sel[n]].length, counts[n], spacing);
      EdgeLayout(sel[n], edges[sel[n]].length, counts[n], spacing);
      var ps := front + last;
      assert Placements(spacing, edges, sel, counts) == ps;
      forall a | 0 <= a < |ps|
        ensures ps[a].edgeIndex < |edges| && 0.0 <= ps[a].offset <= edges[ps[a].edgeIndex].length
      {
        if a < |front| {
          assert ps[a] == front[a];
        } else {
          assert ps[a] == last[a - |front|];
        }
      }
    }
  }

  /** The placements of a selection are those of all but its last edge,
      followed by the last edge's own rivets. */
  lemma PlacementsSplit(spacing: real, edges: seq<Edge>, sel: seq<nat>, counts: seq<int>)
    requires InRange(sel, edges) && |counts| == |sel| && sel != []
    ensures |Placements(spacing, edges, sel, counts)|
      == |Placements(spacing, edges, sel[..|sel| - 1], counts[..|sel| - 1])| + ClampCount(counts[|sel| - 1])
    ensures forall a :: 0 <= a < |Placements(spacing, edges, sel[..|sel| - 1], counts[..|sel| - 1])| ==>
      Placements(spacing, edges, sel, counts)[a] == Placements(spacing, edges, sel[..|sel| - 1], counts[..|sel| - 1])[a]
    ensures forall a :: |Placements(spacing, edges, sel[..|sel| - 1], counts[..|sel| - 1])| <= a < |Placements(spacing, edges, sel, counts)| ==>
      Placements(spacing, edges, sel, counts)[a].edgeIndex == sel[|sel| - 1]
  {
    var n := |sel| - 1;
    var front := Placements(spacing, edges, sel[..n], counts[..n]);
    var last := EdgePlacements(sel[n], edges[sel[n]].length, counts[n], spacing);
    assert Placements(spacing, edges, sel, counts) == front + last;
  }

  /** Placements come edge by edge in selection order. */
  lemma {:induction false} PlacementsInOrder(spacing: real, edges: seq<Edge>, sel: seq<nat>, counts: seq<int>)
    requires InRange(sel, edges) && |counts| == |sel| && Increasing(sel)
    ensures InEdgeOrder(Placements(spacing, edges, sel, counts))
  {
    if sel != [] {
      var n := |sel| - 1;
      var init := sel[..n];
      PlacementsInOrder(spacing, edges, init, counts[..n]);
      PlacementsOnSelectedEdges(spacing, edges, init, counts[..n]);
      PlacementsSplit(spacing, edges, sel, counts);
      var front := Placements(spacing, edges, init, counts[..n]);
      var ps := Placements(spacing, edges, sel, counts);
      forall a | 0 <= a < |front| ensures front[a].edgeIndex < sel[n] {
        var k :| 0 <= k < n && init[k] == front[a].edgeIndex;
        assert sel[k] < sel[n];
      }
      forall a, b | 0 <= a < b < |ps| ensures ps[a].edgeIndex <= ps[b].edgeIndex {
        if b < |front| {
          assert ps[a] == front[a] && ps[b] == front[b];
        } else if a < |front| {
          assert ps[a] == front[a];
        }
      }
    }
  }

  /** With non-negative lengths the total is 0 exactly when every selected edge has length 0. */
  lemma {:induction false} TotalLengthZero(edges: seq<Edge>, sel: seq<nat>)
    requires InRange(sel, edges) && NonNegativeLengths(edges)
    ensures TotalLength(edges, sel) == 0.0 <==> forall k :: 0 <= k < |sel| ==> edges[sel[k]].length == 0.0
  {
    if sel != [] {
      var n := |sel| - 1;
      TotalLengthZero(edges, sel[..n]);
      assert forall k :: 0 <= k < n ==> sel[..n][k] == sel[k];
    }
  }

  /** With non-negative lengths no selected edge is longer than the total. */
  lemma {:induction false} SelectedLengthAtMostTotal(edges: seq<Edge>, sel: seq<nat>, k: nat)
    requires InRange(sel, edges) && NonNegativeLengths(edges) && k < |sel|
    ensures edges[sel[k]].length <= TotalLength(edges, sel)
  {
    var n := |sel| - 1;
    if k < n {
      SelectedLengthAtMostTotal(edges, sel[..n], k);
    }
  }

  /** Both the target object and the rivet object exist. */
  predicate Present(target: Option<TargetObject>, rivet: Option<RivetObject>) {
    target.Some? && rivet.Some?
  }

  /** The target exists and is a mesh. */
  predicate IsMesh(target: Option<TargetObject>, rivet: Option<RivetObject>) {
    Present(target, rivet) && target.value.objectType == MeshType
  }

  /** The target is a mesh in edit mode. */
  predicate Editing(target: Option<TargetObject>, rivet: Option<RivetObject>) {
    IsMesh(target, rivet) && target.value.mode == EditMode
  }

  /** The target is being edited and at least one of its edges is selected. */
  predicate AnySelected(target: Option<TargetObject>, rivet: Option<RivetObject>) {
    Editing(target, rivet) && exists j :: 0 <= j < |target.value.edges| && target.value.edges[j].selected
  }

  /** Every selected edge of the target has length 0. */
  predicate SelectedAllZero(target: TargetObject) {
    forall j :: 0 <= j < |target.edges| && target.edges[j].selected ==> target.edges[j].length == 0.0
  }

  /** The checks run in the order of `execute`: each reason is reported
      exactly when every earlier check passed and its own check fails. */
  lemma ValidateReasons(s: Settings, target: Option<TargetObject>, rivet: Option<RivetObject>)
    requires target.Some? ==> NonNegativeLengths(target.value.edges)
    ensures Validate(s, target, rivet) == Some(MissingObject) <==> !Present(target, rivet)
    ensures Validate(s, target, rivet) == Some(NotAMesh) <==> Present(target, rivet) && !IsMesh(target, rivet)
    ensures Validate(s, target, rivet) == Some(NotInEditMode) <==> IsMesh(target, rivet) && !Editing(target, rivet)
    ensures Validate(s, target, rivet) == Some(NoSelectedEdges) <==> Editing(target, rivet) && !AnySelected(target, rivet)
    ensures Validate(s, target, rivet) == Some(ZeroTotalLength)
      <==> AnySelected(target, rivet) && s.autoMode && SelectedAllZero(target.value)
  {
    if target.Some? {
      SelectionEmpty(target.value.edges);
      SelectionAllZero(target.value.edges);
    }
  }

  /** The selection is empty exactly when no edge is selected. */
  lemma SelectionEmpty(edges: seq<Edge>)
    ensures SelectedIndices(edges) == [] <==> forall j :: 0 <= j < |edges| ==> !edges[j].selected
  {
    var sel := SelectedIndices(edges);
    SelectedIndicesExact(edges);
    if sel != [] {
      assert edges[sel[0]].selected;
    }
  }

  /** With non-negative lengths the selected length is 0 exactly when every selected edge has length 0. */
  lemma SelectionAllZero(edges: seq<Edge>)
    requires NonNegativeLengths(edges)
    ensures TotalLength(edges, SelectedIndices(edges)) == 0.0
      <==> forall j :: 0 <= j < |edges| && edges[j].selected ==> edges[j].length == 0.0
  {
    var sel := SelectedIndices(edges);
    SelectedIndicesExact(edges);
    TotalLengthZero(edges, sel);
    if forall k :: 0 <= k < |sel| ==> edges[sel[k]].length == 0.0 {
      forall j | 0 <= j < |edges| && edges[j].selected ensures edges[j].length == 0.0 {
        var k :| 0 <= k < |sel| && sel[k] == j;
      }
    }
  }

  /** A run cancels with exactly the reason of the first failed check, and a
      run that cancels links nothing. */
  lemma CancelReasons(s: Settings, target: Option<TargetObject>, rivet: Option<RivetObject>)
    requires target.Some? ==> NonNegativeLengths(target.value.edges)
    ensures Execution(s, target, rivet).status == Cancelled(MissingObject) <==> !Present(target, rivet)
    ensures Execution(s, target, rivet).status == Cancelled(NotAMesh) <==> Present(target, rivet) && !IsMesh(target, rivet)
    ensures Execution(s, target, rivet).status == Cancelled(NotInEditMode) <==> IsMesh(target, rivet) && !Editing(target, rivet)
    ensures Execution(s, target, rivet).status == Cancelled(NoSelectedEdges) <==> Editing(target, rivet) && !AnySelected(target, rivet)
    ensures Execution(s, target, rivet).status == Cancelled(ZeroTotalLength)
      <==> AnySelected(target, rivet) && s.autoMode && SelectedAllZero(target.value)
    ensures Execution(s, target, rivet).status == Finished <==> Validate(s, target, rivet) == None
    ensures Execution(s, target, rivet).status.Cancelled? ==> Execution(s, target, rivet).placed == []
  {
    ValidateReasons(s, target, rivet);
  }

  /** In fixed mode a finished run gives every selected edge exactly
      `rivetCount` rivets and every other edge none. */
  lemma FixedModeCounts(s: Settings, target: Option<TargetObject>, rivet: Option<RivetObject>, j: nat)
    requires ValidSettings(s) && !s.autoMode
    requires Execution(s, target, rivet).status == Finished
    requires j < |target.value.edges|
    ensures CountAt(Execution(s, target, rivet).placed, j)
      == if target.value.edges[j].selected then s.rivetCount else 0
  {
    var edges := target.value.edges;
    var sel := SelectedIndices(edges);
    var counts := ResolveCounts(s, edges, sel, TotalLength(edges, sel));
    SelectedIndicesExact(edges);
    if edges[j].selected {
      var k :| 0 <= k < |sel| && sel[k] == j;
      PlacementsOfSelectedEdge(s.spacing, edges, sel, counts, k);
      assert counts[k] == s.rivetCount;
    } else {
      PlacementsOfUnselectedEdge(s.spacing, edges, sel, counts, j);
    }
  }

  /** In auto mode a finished run gives every selected edge its share
      `max(1, int(length * rivetCount / totalLength))`, which lies between one
      and `rivetCount`, and every other edge none. */
  lemma AutoModeCounts(s: Settings, target: Option<TargetObject>, rivet: Option<RivetObject>, j: nat)
    requires ValidSettings(s) && s.autoMode
    requires Execution(s, target, rivet).status == Finished
    requires j < |target.value.edges| && NonNegativeLengths(target.value.edges)
    ensures var edges := target.value.edges;
      var total := TotalLength(edges, SelectedIndices(edges));
      var c := CountAt(Execution(s, target, rivet).placed, j);
      && (edges[j].selected ==> total != 0.0 && c == AutoCount(edges[j].length, s.rivetCount, total) && 1 <= c <= s.rivetCount)
      && (!edges[j].selected ==> c == 0)
  {
    var edges := target.value.edges;
    var sel := SelectedIndices(edges);
    var total := TotalLength(edges, sel);
    var counts := ResolveCounts(s, edges, sel, total);
    SelectedIndicesExact(edges);
    if edges[j].selected {
      var k :| 0 <= k < |sel| && sel[k] == j;
      PlacementsOfSelectedEdge(s.spacing, edges, sel, counts, k);
      SelectedLengthAtMostTotal(edges, sel, k);
      AutoCountBounds(edges[j].length, s.rivetCount, total);
      assert counts[k] == AutoCount(edges[j].length, s.rivetCount, total);
    } else {
      PlacementsOfUnselectedEdge(s.spacing, edges, sel, counts, j);
    }
  }

  /** A finished run links the rivets edge by edge in selection order, each on
      a selected edge and within it, and links as many as the resolved counts add up to. */
  lemma ExecutionLayout(s: Settings, target: Option<TargetObject>, rivet: Option<RivetObject>)
    requires ValidSettings(s)
    requires Execution(s, target, rivet).status == Finished
    requires NonNegativeLengths(target.value.edges)
    ensures var edges := target.value.edges;
      var sel := SelectedIndices(edges);
      var ps := Execution(s, target, rivet).placed;
      && |ps| == TotalRivets(ResolveCounts(s, edges, sel, TotalLength(edges, sel)))
      && (forall a :: 0 <= a < |ps| ==>
            ps[a].edgeIndex < |edges| && edges[ps[a].edgeIndex].selected
            && 0.0 <= ps[a].offset <= edges[ps[a].edgeIndex].length)
      && (forall a, b :: 0 <= a < b < |ps| ==> ps[a].edgeIndex <= ps[b].edgeIndex)
  {
    var edges := target.value.edges;
    var sel := SelectedIndices(edges);
    var counts := ResolveCounts(s, edges, sel, TotalLength(edges, sel));
    SelectedIndicesExact(edges);
    PlacementsInOrder(s.spacing, edges, sel, counts);
    PlacementsOnSelectedEdges(s.spacing, edges, sel, counts);
    PlacementsWithinEdges(s.spacing, edges, sel, counts);
    PlacementsTotal(s.spacing, edges, sel, counts);
    var ps := Execution(s, target, rivet).placed;
    forall a | 0 <= a < |ps| ensures edges[ps[a].edgeIndex].selected {
      var k :| 0 <= k < |sel| && sel[k] == ps[a].edgeIndex;
    }
  }

  /** The exact, unrounded share `length * rivetsPerLength` of each selected edge. */
  function ExactShares(edges: seq<Edge>, sel: seq<nat>, rivetsPerLength: real): (xs: seq<real>)
    requires InRange(sel, edges)
    ensures |xs| == |sel|
    ensures NonNegativeLengths(edges) && 0.0 <= rivetsPerLength ==> forall k :: 0 <= k < |xs| ==> 0.0 <= xs[k]
  {
    seq(|sel|, k requires 0 <= k < |sel| => edges[sel[k]].length * rivetsPerLength)
  }

  /** The sum of a sequence of reals. */
  function Sum(xs: seq<real>): real {
    if xs == [] then 0.0 else Sum(xs[..|xs| - 1]) + xs[|xs| - 1]
  }

  /** `max(1, int(x))` of every exact share. */
  function Rounded(xs: seq<real>): (counts: seq<int>)
    ensures |counts| == |xs|
  {
    seq(|xs|, k requires 0 <= k < |xs| => ClampCount(Truncate(xs[k])))
  }

  /** The exact shares add up to the total length at that density. */
  lemma {:induction false} ExactSharesOfTotal(edges: seq<Edge>, sel: seq<nat>, rivetsPerLength: real)
    requires InRange(sel, edges)
    ensures Sum(ExactShares(edges, sel, rivetsPerLength)) == TotalLength(edges, sel) * rivetsPerLength
  {
    if sel != [] {
      var n := |sel| - 1;
      var xs := ExactShares(edges, sel, rivetsPerLength);
      ExactSharesOfTotal(edges, sel[..n], rivetsPerLength);
      forall k | 0 <= k < n
        ensures ExactShares(edges, sel[..n], rivetsPerLength)[k] == xs[k]
      {
        assert sel[..n][k] == sel[k];
      }
      assert ExactShares(edges, sel[..n], rivetsPerLength) == xs[..n];
      assert (TotalLength(edges, sel[..n]) + edges[sel[n]].length) * rivetsPerLength
        == TotalLength(edges, sel[..n]) * rivetsPerLength + edges[sel[n]].length * rivetsPerLength;
    }
  }

  /** The share counts are the exact shares rounded by `max(1, int(...))`. */
  lemma ShareCountsRounded(edges: seq<Edge>, sel: seq<nat>, rivetsPerLength: real)
    requires InRange(sel, edges)
    ensures ShareCounts(edges, sel, rivetsPerLength) == Rounded(ExactShares(edges, sel, rivetsPerLength))
  {
  }

  /** Rounding non-negative shares by `max(1, int(...))` keeps their sum
      within one per share: never more than one below, and at most one above. */
  lemma {:induction false} RoundedNearSum(xs: seq<real>)
    requires forall k :: 0 <= k < |xs| ==> 0.0 <= xs[k]
    ensures Sum(xs) - |xs| as real <= TotalRivets(Rounded(xs)) as real <= Sum(xs) + |xs| as real
    ensures xs != [] ==> Sum(xs) - |xs| as real < TotalRivets(Rounded(xs)) as real
  {
    if xs != [] {
      var n := |xs| - 1;
      var counts := Rounded(xs);
      RoundedNearSum(xs[..n]);
      assert Rounded(xs[..n]) == counts[..n];
      assert counts[n] == ClampCount(counts[n]);
      assert 0.0 <= xs[n];
    }
  }

  /** Auto mode does not keep to the budget exactly: a finished run links more
      than `rivetCount - k` and at most `rivetCount + k` rivets over `k` selected edges. */
  lemma AutoModeDrift(s: Settings, target: Option<TargetObject>, rivet: Option<RivetObject>)
    requires ValidSettings(s) && s.autoMode
    requires Execution(s, target, rivet).status == Finished
    requires NonNegativeLengths(target.value.edges)
    ensures s.rivetCount - |SelectedIndices(target.value.edges)| < |Execution(s, target, rivet).placed|
    ensures |Execution(s, target, rivet).placed| <= s.rivetCount + |SelectedIndices(target.value.edges)|
  {
    var edges := target.value.edges;
    var sel := SelectedIndices(edges);
    var total := TotalLength(edges, sel);
    assert Validate(s, target, rivet) == None;
    assert sel != [] && total != 0.0;
    assert 0.0 < total;
    var d := Density(s.rivetCount, total);
    assert 0.0 <= d;
    var counts := ResolveCounts(s, edges, sel, total);
    assert counts == ShareCounts(edges, sel, d);
    assert Execution(s, target, rivet).placed == Placements(s.spacing, edges, sel, counts);
    PlacementsTotal(s.spacing, edges, sel, counts);
    ShareCountsRounded(edges, sel, d);
    RoundedNearSum(ExactShares(edges, sel, d));
    SharesMakeBudget(edges, sel, s.rivetCount);
  }

  /** At auto mode's density the exact shares of the selected edges add up to the budget. */
  lemma SharesMakeBudget(edges: seq<Edge>, sel: seq<nat>, rivetCount: int)
    requires InRange(sel, edges) && TotalLength(edges, sel) != 0.0
    ensures Sum(ExactShares(edges, sel, Density(rivetCount, TotalLength(edges, sel)))) == rivetCount as real
  {
    ExactSharesOfTotal(edges, sel, Density(rivetCount, TotalLength(edges, sel)));
    DensityOverTotal(rivetCount, TotalLength(edges, sel));
  }

  /** Three selected edges of lengths 1, 1 and 98 with a budget of 10: the
      shares 0.1, 0.1 and 9.8 become 1, 1 and 9, so 11 rivets are linked. */
  lemma AutoModeOvershoots()
    ensures Execution(Settings(0.1, 10, true),
      Some(TargetObject(MeshType, EditMode, [Edge(1.0, true), Edge(1.0, true), Edge(98.0, true)])),
      Some(RivetObject("rivet"))).status == Finished
    ensures |Execution(Settings(0.1, 10, true),
      Some(TargetObject(MeshType, EditMode, [Edge(1.0, true), Edge(1.0, true), Edge(98.0, true)])),
      Some(RivetObject("rivet"))).placed| == 11
  {
    var edges := [Edge(1.0, true), Edge(1.0, true), Edge(98.0, true)];
    var s := Settings(0.1, 10, true);
    var target := Some(TargetObject(MeshType, EditMode, edges));
    var rivet := Some(RivetObject("rivet"));
    var sel := ThreeSelected(edges);
    assert TotalLength(edges, sel[..1]) == 1.0;
    assert TotalLength(edges, sel[..2]) == 2.0;
    assert TotalLength(edges, sel) == 100.0;
    assert Validate(s, target, rivet) == None;
    var d := Density(10, 100.0);
    assert d == 0.1;
    assert ShareCount(1.0, d) == 1 && ShareCount(98.0, d) == 9;
    var counts := ResolveCounts(s, edges, sel, 100.0);
    assert counts == [1, 1, 9];
    PlacementsTotal(s.spacing, edges, sel, counts);
    assert counts[..2] == [1, 1] && counts[..1] == [1] && counts[..0] == [];
    assert TotalRivets(counts[..1]) == 1;
    assert counts[..2][..1] == counts[..1];
    assert TotalRivets(counts[..2]) == 2;
    assert TotalRivets(counts) == 11;
    assert Execution(s, target, rivet).placed == Placements(s.spacing, edges, sel, counts);
  }

  /** Three selected edges of length 1 with a budget of 10: each share 3.33
      becomes 3, so only 9 rivets are linked. */
  lemma AutoModeUndershoots()
    ensures Execution(Settings(0.1, 10, true),
      Some(TargetObject(MeshType, EditMode, [Edge(1.0, true), Edge(1.0, true), Edge(1.0, true)])),
      Some(RivetObject("rivet"))).status == Finished
    ensures |Execution(Settings(0.1, 10, true),
      Some(TargetObject(MeshType, EditMode, [Edge(1.0, true), Edge(1.0, true), Edge(1.0, true)])),
      Some(RivetObject("rivet"))).placed| == 9
  {
    var edges := [Edge(1.0, true), Edge(1.0, true), Edge(1.0, true)];
    var s := Settings(0.1, 10, true);
    var target := Some(TargetObject(MeshType, EditMode, edges));
    var rivet := Some(RivetObject("rivet"));
    var sel := ThreeSelected(edges);
    assert TotalLength(edges, sel[..1]) == 1.0;
    assert TotalLength(edges, sel[..2]) == 2.0;
    assert TotalLength(edges, sel) == 3.0;
    assert Validate(s, target, rivet) == None;
    var d := Density(10, 3.0);
    assert ShareCount(1.0, d) == 3;
    var counts := ResolveCounts(s, edges, sel, 3.0);
    assert counts == [3, 3, 3];
    PlacementsTotal(s.spacing, edges, sel, counts);
    assert counts[..2] == [3, 3] && counts[..1] == [3] && counts[..0] == [];
    assert TotalRivets(counts[..1]) == 3;
    assert counts[..2][..1] == counts[..1];
    assert TotalRivets(counts[..2]) == 6;
    assert TotalRivets(counts) == 9;
    assert Execution(s, target, rivet).placed == Placements(s.spacing, edges, sel, counts);
  }

  /** Three edges that are all selected give the selection `[0, 1, 2]`. */
  lemma ThreeSelected(edges: seq<Edge>) returns (sel: seq<nat>)
    requires |edges| == 3 && edges[0].selected && edges[1].selected && edges[2].selected
    ensures sel == SelectedIndices(edges) == [0, 1, 2]
  {
    assert edges[..2][..1][..0] == [];
    assert SelectedIndices(edges[..2][..1]) == [0];
    assert SelectedIndices(edges[..2]) == [0, 1];
    sel := [0, 1, 2];
  }
}
