/** The per-edge placement rules of the rivet tool, as pure functions over
    exact reals: the count clamp, Python's `int()` truncation, the auto-mode
    count formula, the effective spacing and the offsets of the rivets placed
    along one edge. Floating-point rounding is not modelled. */
module RivetLayout {

  /** Bounds of the operator's `spacing` and `rivet_count` properties. */
  const MinSpacing: real := 0.0
  const MaxSpacing: real := 0.222
  const MinRivetCount: int := 1

  /** The operator's own properties, read as `self.spacing`, `self.rivet_count`
      and `self.auto_mode`. */
  datatype Settings = Settings(spacing: real, rivetCount: int, autoMode: bool)

  /** The host enforces the declared property bounds on every value it hands over. */
  predicate ValidSettings(s: Settings) {
    MinSpacing <= s.spacing <= MaxSpacing && MinRivetCount <= s.rivetCount
  }

  /** One rivet copy: the edge it belongs to and its distance from the edge's
      first vertex along the edge direction. */
  datatype Placement = Placement(edgeIndex: nat, offset: real)

  /** `max(1, n)`: a count below one becomes one, any other count is kept. */
  function ClampCount(n: int): (r: nat)
    ensures 1 <= r && n <= r
    ensures r == 1 || r == n
  {
    if n < 1 then 1 else n
  }

  /** Python's `int(x)` on a float: truncation toward zero. */
  function Truncate(x: real): (r: int)
    ensures 0.0 <= x ==> 0 <= r && r as real <= x < r as real + 1.0
    ensures x < 0.0 ==> r <= 0 && r as real - 1.0 < x <= r as real
  {
    if 0.0 <= x then x.Floor else -((-x).Floor)
  }

  /** Python's `min(a, b)`, which keeps `a` when the two are equal. */
  function Min(a: real, b: real): (r: real)
    ensures r <= a && r <= b && (r == a || r == b)
  {
    if b < a then b else a
  }

  /** `max(1, int(length * rivetsPerLength))`: an edge's share of rivets at a given density. */
  function ShareCount(length: real, rivetsPerLength: real): int {
    ClampCount(Truncate(length * rivetsPerLength))
  }

  /** Auto mode's count for one edge, with the density `rivetCount / totalLength`. */
  function AutoCount(length: real, rivetCount: int, totalLength: real): int
    requires totalLength != 0.0
  {
    ShareCount(length, Density(rivetCount, totalLength))
  }

  /** `rivet_count / total_length`: rivets per unit of selected length. */
  function Density(rivetCount: int, totalLength: real): real
    requires totalLength != 0.0
  {
    rivetCount as real / totalLength
  }

  /** The spacing the edge length allows for `n` rivets: `length / (n - 1)`, or 0 for one rivet. */
  function NaturalSpacing(length: real, n: nat): real {
    if n > 1 then length / (n - 1) as real else 0.0
  }

  /** The spacing actually used: the user's spacing is a ceiling on the natural one. */
  function EffectiveSpacing(spacing: real, length: real, n: nat): (s: real)
    ensures s <= spacing
    ensures 0.0 <= spacing && 0.0 <= length ==> 0.0 <= s
    ensures n <= 1 && 0.0 <= spacing ==> s == 0.0
    ensures n > 1 ==> s <= length / (n - 1) as real
    ensures n > 1 ==> s == spacing || s == length / (n - 1) as real
  {
    Min(spacing, NaturalSpacing(length, n))
  }

  /** With settings inside the declared bounds the effective spacing stays inside them too. */
  lemma SpacingWithinPropertyBounds(s: Settings, length: real, n: nat)
    requires ValidSettings(s) && 0.0 <= length
    ensures MinSpacing <= EffectiveSpacing(s.spacing, length, n) <= s.spacing <= MaxSpacing
  {
  }

  /** The rivets placed along one edge: `max(1, rivetCount)` of them, rivet `i`
      at offset `i * EffectiveSpacing` from the first vertex. */
  function EdgePlacements(edgeIndex: nat, length: real, rivetCount: int, spacing: real): seq<Placement> {
    var n := ClampCount(rivetCount);
    var s := EffectiveSpacing(spacing, length, n);
    seq(n, i requires 0 <= i < n => Placement(edgeIndex, i as real * s))
  }

  /** In auto mode every edge whose length is at most the total gets between
      one and `rivetCount` rivets. */
  lemma AutoCountBounds(length: real, rivetCount: int, totalLength: real)
    requires 0.0 <= length <= totalLength && 0.0 < totalLength
    requires 1 <= rivetCount
    ensures 1 <= AutoCount(length, rivetCount, totalLength) <= rivetCount
  {
    var perLength := Density(rivetCount, totalLength);
    var x := length * perLength;
    assert 0.0 <= perLength;
    assert x <= totalLength * perLength;
    assert totalLength * perLength == rivetCount as real;
    assert Truncate(x) <= rivetCount;
  }

  /** Spread over the whole selected length, the density gives back the budget. */
  lemma DensityOverTotal(rivetCount: int, totalLength: real)
    requires totalLength != 0.0
    ensures totalLength * Density(rivetCount, totalLength) == rivetCount as real
  {
  }

  /** An edge's share count is within one of its exact share `length * rivetsPerLength`,
      and above it only when that share is below one and the minimum of one applies. */
  lemma ShareCountNearShare(length: real, rivetsPerLength: real)
    requires 0.0 <= length && 0.0 <= rivetsPerLength
    ensures var x := length * rivetsPerLength;
      var c := ShareCount(length, rivetsPerLength) as real;
      x - 1.0 < c && (c <= x || (c == 1.0 && x < 1.0))
  {
    assert 0.0 <= length * rivetsPerLength;
  }

  /** Offset `i` is `i` spacings from the first vertex and never passes the
      second vertex. */
  lemma OffsetWithinEdge(length: real, n: nat, s: real, i: nat)
    requires 0.0 <= length && 0.0 <= s && i < n
    requires n > 1 ==> s <= length / (n - 1) as real
    requires n <= 1 ==> s == 0.0
    ensures 0.0 <= i as real * s <= length
  {
    if n > 1 {
      var m := (n - 1) as real;
      assert i as real <= m;
      assert i as real * s <= m * s;
      assert m * (length / m) == length;
      assert m * s <= m * (length / m);
    }
  }

  /** The layout of one edge: at least one rivet, the first on the first
      vertex, consecutive rivets exactly one effective spacing apart, the
      spacing never above the user's, and no rivet past the second vertex. */
  lemma EdgeLayout(edgeIndex: nat, length: real, rivetCount: int, spacing: real)
    requires 0.0 <= length && 0.0 <= spacing
    ensures var ps := EdgePlacements(edgeIndex, length, rivetCount, spacing);
      var s := EffectiveSpacing(spacing, length, ClampCount(rivetCount));
      && |ps| == ClampCount(rivetCount) >= 1
      && ps[0].offset == 0.0
      && 0.0 <= s <= spacing
      && (forall i :: 0 <= i < |ps| ==> ps[i].edgeIndex == edgeIndex && 0.0 <= ps[i].offset <= length)
      && (forall i :: 0 < i < |ps| ==> ps[i].offset == ps[i - 1].offset + s)
  {
    var n := ClampCount(rivetCount);
    var s := EffectiveSpacing(spacing, length, n);
    var ps := EdgePlacements(edgeIndex, length, rivetCount, spacing);
    forall i | 0 <= i < |ps|
      ensures 0.0 <= ps[i].offset <= length
    {
      OffsetWithinEdge(length, n, s, i);
    }
    forall i | 0 < i < |ps|
      ensures ps[i].offset == ps[i - 1].offset + s
    {
      assert i as real * s == (i - 1) as real * s + s;
    }
  }

  /** Offsets along one edge never decrease, and strictly increase when the
      effective spacing is positive. */
  lemma EdgeOffsetsOrdered(edgeIndex: nat, length: real, rivetCount: int, spacing: real, i: nat, j: nat)
    requires 0.0 <= length && 0.0 <= spacing
    requires i < j < ClampCount(rivetCount)
    ensures var ps := EdgePlacements(edgeIndex, length, rivetCount, spacing);
      ps[i].offset <= ps[j].offset
      && (0.0 < EffectiveSpacing(spacing, length, ClampCount(rivetCount)) ==> ps[i].offset < ps[j].offset)
  {
    var s := EffectiveSpacing(spacing, length, ClampCount(rivetCount));
    var gap := (j - i - 1) as real;
    assert j as real * s == i as real * s + s + gap * s;
    assert 0.0 <= gap * s;
  }

  /** With an effective spacing of 0 (user spacing 0, one rivet, or an edge of
      length 0) every rivet of the edge sits on its first vertex. */
  lemma ZeroSpacingStacksOnFirstVertex(edgeIndex: nat, length: real, rivetCount: int, spacing: real)
    requires EffectiveSpacing(spacing, length, ClampCount(rivetCount)) == 0.0
    ensures var ps := EdgePlacements(edgeIndex, length, rivetCount, spacing);
      |ps| == ClampCount(rivetCount) && forall i :: 0 <= i < |ps| ==> ps[i].offset == 0.0
  {
  }

  /** An edge of length 1 with spacing 0.2 and five rivets: the natural
      spacing 0.25 exceeds the user's 0.2, so the rivets sit at 0, 0.2, 0.4,
      0.6 and 0.8 and do not reach the second vertex. */
  lemma FiveRivetsOnUnitEdge()
    ensures EdgePlacements(0, 1.0, 5, 0.2)
      == [Placement(0, 0.0), Placement(0, 0.2), Placement(0, 0.4), Placement(0, 0.6), Placement(0, 0.8)]
  {
    assert EffectiveSpacing(0.2, 1.0, 5) == 0.2;
  }

  /** Three rivets on the same edge: the natural spacing 0.5 again exceeds
      0.2, so the rivets sit at 0, 0.2 and 0.4 from the first vertex (not
      centred on the midpoint). */
  lemma ThreeRivetsOnUnitEdge()
    ensures EdgePlacements(0, 1.0, 3, 0.2) == [Placement(0, 0.0), Placement(0, 0.2), Placement(0, 0.4)]
  {
    assert EffectiveSpacing(0.2, 1.0, 3) == 0.2;
  }
}
